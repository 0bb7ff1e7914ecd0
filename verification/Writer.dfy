// _RotatingWriter (src/l2_pipeline/sinks/parquet_sink.py): one instrument's files, rotated at the hour
// and at the checkpoint interval. The file system is a map from path to rows; Path.replace is a map
// update, and overwrites.
module Writer {
  import opened BookTypes
  import opened Rows

  /** exchange=.../symbol=.../date=.../hour=.../part-NNNN.parquet, with or without .tmp. The hour is
      counted from the epoch, which fixes both the date and the hour directory. */
  datatype Path = Path(exchange: string, symbol: string, hour: int, part: nat, tmp: bool)

  type Files = map<Path, seq<SnapshotRow>>

  const NS_PER_HOUR := 3_600_000_000_000

  /** _hour_key_for, on the wall-clock timestamp: the hour since the epoch that contains it. */
  function HourOf(row: SnapshotRow): (hour: int)
    ensures hour * 3_600_000_000_000 <= row.tsWallNs < (hour + 1) * 3_600_000_000_000
  {
    row.tsWallNs / NS_PER_HOUR
  }

  class FileSystem {
    var files: Files

    constructor ()
      ensures files == map[]
    {
      files := map[];
    }
  }

  /** One file a writer has opened: its place, when it was opened, the rows written to it and, for
      each of them, when. */
  datatype Opening = Opening(hour: int, part: nat, openedAt: real, rows: seq<SnapshotRow>, writtenAt: seq<real>)
  {
    /** This file after one more batch. */
    function Longer(batch: seq<SnapshotRow>, now: real): Opening {
      this.(rows := rows + batch, writtenAt := writtenAt + seq(|batch|, _ => now))
    }
  }

  function FinalPath(exchange: string, symbol: string, o: Opening): Path {
    Path(exchange, symbol, o.hour, o.part, false)
  }

  function TmpPath(exchange: string, symbol: string, o: Opening): Path {
    Path(exchange, symbol, o.hour, o.part, true)
  }

  /** The sequence number a file opened next for this hour gets: it restarts whenever the hour
      differs from the previous file's. */
  function NextPart(openings: seq<Opening>, hour: int): nat {
    if openings != [] && openings[|openings| - 1].hour == hour then openings[|openings| - 1].part + 1 else 0
  }

  predicate Numbered(openings: seq<Opening>) {
    openings == [] ||
    (var n := |openings| - 1;
     Numbered(openings[..n]) && openings[n].part == NextPart(openings[..n], openings[n].hour))
  }

  /** A directory that held these files, after all the openings were finalised in turn. A .tmp left
      there by an earlier process is taken over by the file of the same name. */
  function Finalised(base: Files, exchange: string, symbol: string, openings: seq<Opening>): Files {
    if openings == [] then base
    else
      var n := |openings| - 1;
      (Finalised(base, exchange, symbol, openings[..n]) - {TmpPath(exchange, symbol, openings[n])})
      [FinalPath(exchange, symbol, openings[n]) := openings[n].rows]
  }

  /** The directory of a writer whose last file may still be open as a .tmp. */
  function OnDisk(base: Files, exchange: string, symbol: string, openings: seq<Opening>, isOpen: bool): Files {
    if !isOpen || openings == [] then Finalised(base, exchange, symbol, openings)
    else
      var n := |openings| - 1;
      Finalised(base, exchange, symbol, openings[..n])[TmpPath(exchange, symbol, openings[n]) := openings[n].rows]
  }

  function Own(files: Files, exchange: string, symbol: string): Files {
    map p | p in files && p.exchange == exchange && p.symbol == symbol :: files[p]
  }

  /** Every row lies in the partition of its own exchange, symbol and hour. */
  ghost predicate Placed(exchange: string, symbol: string, openings: seq<Opening>) {
    forall i, row :: 0 <= i < |openings| && row in openings[i].rows ==>
      row.exchange == exchange && row.symbol == symbol && HourOf(row) == openings[i].hour
  }

  ghost predicate NoEmptyFile(openings: seq<Opening>) {
    forall i :: 0 <= i < |openings| ==> openings[i].rows != []
  }

  /** Everything in the file was written when it was opened or less than one interval later. */
  ghost predicate Timely(o: Opening, interval: real) {
    && |o.writtenAt| == |o.rows|
    && forall i :: 0 <= i < |o.writtenAt| ==>
         o.writtenAt[i] == o.openedAt || o.openedAt <= o.writtenAt[i] < o.openedAt + interval
  }

  ghost predicate AllTimely(openings: seq<Opening>, interval: real) {
    forall i :: 0 <= i < |openings| ==> Timely(openings[i], interval)
  }

  /** A batch was written: to a new file, or at the end of the current one. */
  ghost predicate Extended(before: seq<Opening>, after: seq<Opening>, batch: seq<SnapshotRow>)
    requires batch != []
  {
    && after != []
    && var last, hour := after[|after| - 1], HourOf(batch[0]);
    && last.hour == hour
    && if |after| > |before|
       then after == before + [last] && last.part == NextPart(before, hour) && last.rows == batch
       else
         var n := |before| - 1;
         && |after| == |before| && after[..n] == before[..n]
         && before[n].hour == hour && last.part == before[n].part && last.rows == before[n].rows + batch
  }

  class RotatingWriter {
    const fs: FileSystem
    const exchange: string
    const symbol: string
    const checkpointInterval: real
    var tmpPath: Option<Path>
    var finalPath: Option<Path>
    var hourKey: Option<int>
    var sequence: nat
    var openedAt: real
    /** What the instrument's directory held when the writer was made, and every file opened since. */
    ghost const base: Files
    ghost var openings: seq<Opening>

    /** The instrument's directory holds what it held at first, the finalised files and at most one
        open .tmp; every row lies in the partition of its own exchange, symbol and hour; and every
        file was filled within one checkpoint interval. */
    ghost predicate Valid()
      reads this, fs
    {
      && Consistent()
      && NoEmptyFile(openings) && AllTimely(openings, checkpointInterval)
    }

    ghost predicate Consistent()
      reads this, fs
    {
      var n := |openings| - 1;
      && Own(fs.files, exchange, symbol) == OnDisk(base, exchange, symbol, openings, tmpPath.Some?)
      && Numbered(openings)
      && Placed(exchange, symbol, openings)
      && hourKey == (if openings == [] then None else Some(openings[n].hour))
      && sequence == (if openings == [] then 0 else openings[n].part + 1)
      && (tmpPath.Some? ==>
            && openings != [] && openedAt == openings[n].openedAt
            && tmpPath.value == TmpPath(exchange, symbol, openings[n])
            && finalPath == Some(FinalPath(exchange, symbol, openings[n])))
    }

    constructor (fs: FileSystem, exchange: string, symbol: string, checkpointInterval: real)
      ensures Valid() && openings == [] && tmpPath == None && this.fs == fs
      ensures base == Own(fs.files, exchange, symbol)
      ensures this.exchange == exchange && this.symbol == symbol && this.checkpointInterval == checkpointInterval
    {
      this.fs, this.exchange, this.symbol, this.checkpointInterval := fs, exchange, symbol, checkpointInterval;
      tmpPath, finalPath, hourKey, sequence, openedAt := None, None, None, 0, 0.0;
      base, openings := Own(fs.files, exchange, symbol), [];
    }

    /** Appends a batch to the open file, or finalises that and opens the next one first: when there
        is none, when the hour changed, and when the checkpoint interval is over. */
    method WriteBatch(rows: seq<SnapshotRow>, now: real)
      requires Valid() && (tmpPath.Some? ==> openedAt <= now)
      requires forall row :: row in rows ==>
                 row.exchange == exchange && row.symbol == symbol && HourOf(row) == HourOf(rows[0])
      modifies this, fs
      ensures Valid() && OthersUntouched(old(fs.files), fs.files)
      ensures rows == [] ==> fs.files == old(fs.files) && openings == old(openings)
                             && tmpPath == old(tmpPath) && openedAt == old(openedAt)
      ensures rows != [] ==> tmpPath.Some? && Extended(old(openings), openings, rows)
      ensures rows != [] && (old(tmpPath) == None || old(hourKey) != Some(HourOf(rows[0]))
                             || now - old(openedAt) >= checkpointInterval) ==>
        && openedAt == now
        && openings == old(openings)
             + [Opening(HourOf(rows[0]), NextPart(old(openings), HourOf(rows[0])), now, [], []).Longer(rows, now)]
      ensures rows != [] && old(tmpPath).Some? && old(hourKey) == Some(HourOf(rows[0]))
              && now - old(openedAt) < checkpointInterval ==>
        && openedAt == old(openedAt)
        && var n := |old(openings)| - 1;
           openings == old(openings)[..n] + [old(openings)[n].Longer(rows, now)]
    {
      if rows == [] {
        return;
      }
      var hour := HourOf(rows[0]);
      ghost var before, n := openings, |openings| - 1;
      if tmpPath.None? || Some(hour) != hourKey || now - openedAt >= checkpointInterval {
        Finalise();
        Open(hour, now);
        ghost var o := openings[n + 1];
        GrownFits(before, o, rows, now, checkpointInterval);
        NewFileExtends(before, rows, o.Longer(rows, now));
      } else {
        GrownFits(before[..n], before[n], rows, now, checkpointInterval);
        SameFileExtends(before, rows, before[n].Longer(rows, now));
      }
      Append(rows, now);
    }

    method Open(hour: int, now: real)
      requires Consistent() && tmpPath == None
      modifies this, fs
      ensures Consistent() && tmpPath.Some? && openedAt == now && hourKey == Some(hour)
      ensures openings == old(openings) + [Opening(hour, NextPart(old(openings), hour), now, [], [])]
      ensures OthersUntouched(old(fs.files), fs.files)
    {
      if Some(hour) != hourKey {
        sequence := 0;
      }
      hourKey := Some(hour);
      var part := sequence;
      sequence := sequence + 1;
      finalPath := Some(Path(exchange, symbol, hour, part, false));
      tmpPath := Some(Path(exchange, symbol, hour, part, true));
      OwnUpdated(fs.files, exchange, symbol, tmpPath.value, []);
      fs.files := fs.files[tmpPath.value := []];
      openedAt := now;
      ghost var opening := Opening(hour, part, now, [], []);
      OpenedOnDisk(base, exchange, symbol, openings, opening);
      openings := openings + [opening];
    }

    /** write_table on the open file. */
    method Append(rows: seq<SnapshotRow>, now: real)
      requires Consistent() && tmpPath.Some?
      requires forall row :: row in rows ==>
                 row.exchange == exchange && row.symbol == symbol && Some(HourOf(row)) == hourKey
      modifies this`openings, fs
      ensures Consistent()
      ensures var n := |old(openings)| - 1;
        openings == old(openings)[..n] + [old(openings)[n].Longer(rows, now)]
      ensures OthersUntouched(old(fs.files), fs.files)
    {
      ghost var n := |openings| - 1;
      var path := tmpPath.value;
      assert path in Own(fs.files, exchange, symbol);
      var content := fs.files[path] + rows;
      OwnUpdated(fs.files, exchange, symbol, path, content);
      fs.files := fs.files[path := content];
      ghost var longer := openings[n].Longer(rows, now);
      AppendedOnDisk(base, exchange, symbol, openings, longer);
      openings := openings[..n] + [longer];
    }

    /** Everything outside this instrument's directory is as it was. */
    ghost predicate OthersUntouched(before: Files, after: Files) {
      forall e, s {:trigger Own(after, e, s)} :: (e, s) != (exchange, symbol) ==> Own(after, e, s) == Own(before, e, s)
    }

    /** Path.replace: the .tmp takes the final name, whatever that held before. */
    method Finalise()
      requires Consistent()
      modifies this`tmpPath, this`finalPath, fs
      ensures Consistent() && tmpPath == None
      ensures OthersUntouched(old(fs.files), fs.files)
    {
      if tmpPath.None? {
        return;
      }
      var from, to := tmpPath.value, finalPath.value;
      assert from in Own(fs.files, exchange, symbol);
      var content := fs.files[from];
      RenamedOnDisk(base, exchange, symbol, openings);
      OwnRemoved(fs.files, exchange, symbol, from);
      OwnUpdated(fs.files - {from}, exchange, symbol, to, content);
      fs.files := (fs.files - {from})[to := content];
      tmpPath, finalPath := None, None;
    }

    method Close()
      requires Valid()
      modifies this`tmpPath, this`finalPath, fs
      ensures Valid() && tmpPath == None
      ensures OthersUntouched(old(fs.files), fs.files)
    {
      Finalise();
    }
  }

  /** A file that gets a batch in time. */
  lemma GrownFits(others: seq<Opening>, o: Opening, batch: seq<SnapshotRow>, now: real, interval: real)
    requires NoEmptyFile(others) && AllTimely(others, interval) && Timely(o, interval) && batch != []
    requires now == o.openedAt || o.openedAt <= now < o.openedAt + interval
    ensures NoEmptyFile(others + [o.Longer(batch, now)]) && AllTimely(others + [o.Longer(batch, now)], interval)
  {
    var longer := o.Longer(batch, now);
    assert forall i :: 0 <= i < |longer.writtenAt| ==>
      longer.writtenAt[i] == if i < |o.writtenAt| then o.writtenAt[i] else now;
    assert forall i :: 0 <= i < |others| ==> (others + [longer])[i] == others[i];
  }

  lemma NewFileExtends(before: seq<Opening>, batch: seq<SnapshotRow>, o: Opening)
    requires batch != [] && o.rows == batch && o.hour == HourOf(batch[0]) && o.part == NextPart(before, o.hour)
    ensures Extended(before, before + [o], batch)
  {
  }

  lemma SameFileExtends(before: seq<Opening>, batch: seq<SnapshotRow>, o: Opening)
    requires batch != [] && before != [] && o.hour == HourOf(batch[0])
    requires var last := before[|before| - 1];
      last.hour == o.hour && last.part == o.part && o.rows == last.rows + batch
    ensures Extended(before, before[..|before| - 1] + [o], batch)
  {
    assert (before[..|before| - 1] + [o])[..|before| - 1] == before[..|before| - 1];
  }

  lemma OpenedOnDisk(base: Files, exchange: string, symbol: string, openings: seq<Opening>, o: Opening)
    requires Numbered(openings) && o.part == NextPart(openings, o.hour)
    ensures Numbered(openings + [o])
    ensures Placed(exchange, symbol, openings) && o.rows == [] ==> Placed(exchange, symbol, openings + [o])
    ensures OnDisk(base, exchange, symbol, openings + [o], true)
         == OnDisk(base, exchange, symbol, openings, false)[TmpPath(exchange, symbol, o) := o.rows]
  {
    assert (openings + [o])[..|openings|] == openings;
  }

  lemma AppendedOnDisk(base: Files, exchange: string, symbol: string, openings: seq<Opening>, longer: Opening)
    requires openings != [] && Numbered(openings)
    requires var last := openings[|openings| - 1]; longer.hour == last.hour && longer.part == last.part
    ensures var n := |openings| - 1;
      var after := openings[..n] + [longer];
      && Numbered(after)
      && (Placed(exchange, symbol, openings) && Placed(exchange, symbol, [longer]) ==> Placed(exchange, symbol, after))
      && TmpPath(exchange, symbol, longer) in OnDisk(base, exchange, symbol, openings, true)
      && OnDisk(base, exchange, symbol, openings, true)[TmpPath(exchange, symbol, longer)] == openings[n].rows
      && OnDisk(base, exchange, symbol, after, true)
         == OnDisk(base, exchange, symbol, openings, true)[TmpPath(exchange, symbol, longer) := longer.rows]
  {
    var n := |openings| - 1;
    var after := openings[..n] + [longer];
    assert after[..n] == openings[..n] && forall i :: 0 <= i < n ==> after[i] == openings[i];
    assert after[n] == [longer][0];
  }

  lemma RenamedOnDisk(base: Files, exchange: string, symbol: string, openings: seq<Opening>)
    requires openings != []
    ensures var n := |openings| - 1;
      var open := OnDisk(base, exchange, symbol, openings, true);
      var tmp := TmpPath(exchange, symbol, openings[n]);
      && tmp in open
      && OnDisk(base, exchange, symbol, openings, false)
         == (open - {tmp})[FinalPath(exchange, symbol, openings[n]) := open[tmp]]
  {
    var n := |openings| - 1;
    var tmp := TmpPath(exchange, symbol, openings[n]);
    var files := Finalised(base, exchange, symbol, openings[..n]);
    assert files[tmp := openings[n].rows] - {tmp} == files - {tmp};
  }

  /** Every row on disk lies under its own exchange, symbol and hour. */
  ghost predicate RowsPlaced(files: Files) {
    forall p, row :: p in files && row in files[p] ==>
      row.exchange == p.exchange && row.symbol == p.symbol && HourOf(row) == p.hour
  }

  lemma {:induction false} FinalisedRowsPlaced(base: Files, exchange: string, symbol: string, openings: seq<Opening>)
    requires RowsPlaced(base) && Placed(exchange, symbol, openings)
    ensures RowsPlaced(Finalised(base, exchange, symbol, openings))
  {
    if openings != [] {
      var n := |openings| - 1;
      assert forall i :: 0 <= i < n ==> openings[..n][i] == openings[i];
      FinalisedRowsPlaced(base, exchange, symbol, openings[..n]);
    }
  }

  /** So wherever a writer puts a row, it is under the hour of the row's wall-clock timestamp. */
  lemma WriterPlacesRows(w: RotatingWriter)
    requires w.Valid() && RowsPlaced(w.base)
    ensures RowsPlaced(Own(w.fs.files, w.exchange, w.symbol))
  {
    FinalisedRowsPlaced(w.base, w.exchange, w.symbol, w.openings);
    if w.tmpPath.Some? {
      var n := |w.openings| - 1;
      assert forall i :: 0 <= i < n ==> w.openings[..n][i] == w.openings[i];
      FinalisedRowsPlaced(w.base, w.exchange, w.symbol, w.openings[..n]);
    }
  }

  lemma OwnUpdated(files: Files, exchange: string, symbol: string, p: Path, rows: seq<SnapshotRow>)
    requires p.exchange == exchange && p.symbol == symbol
    ensures Own(files[p := rows], exchange, symbol) == Own(files, exchange, symbol)[p := rows]
    ensures forall e, s {:trigger Own(files[p := rows], e, s)} ::
              (e, s) != (exchange, symbol) ==> Own(files[p := rows], e, s) == Own(files, e, s)
  {
  }

  lemma OwnRemoved(files: Files, exchange: string, symbol: string, p: Path)
    requires p.exchange == exchange && p.symbol == symbol
    ensures Own(files - {p}, exchange, symbol) == Own(files, exchange, symbol) - {p}
    ensures forall e, s {:trigger Own(files - {p}, e, s)} ::
              (e, s) != (exchange, symbol) ==> Own(files - {p}, e, s) == Own(files, e, s)
  {
  }
}
