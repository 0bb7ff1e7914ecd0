// What a rotating writer's directory holds, hour by hour: exactly the rows written for the hour when
// the hour is never left and come back to, and fewer rows otherwise.
module FileNames {
  import opened BookTypes
  import opened Collections
  import opened Rows
  import opened Writer

  /** The writer leaves the hour and returns to it. */
  predicate ComesBack(openings: seq<Opening>, hour: int) {
    exists i, j, k :: 0 <= i < j < k < |openings|
                      && openings[i].hour == hour && openings[j].hour != hour && openings[k].hour == hour
  }

  /** Finalising file j would put it in the place of a file finalised before it. */
  predicate ReplacesAt(openings: seq<Opening>, j: nat)
    requires j < |openings|
  {
    exists i :: 0 <= i < j && openings[i].hour == openings[j].hour && openings[i].part == openings[j].part
  }

  lemma {:induction false} NumberedPrefix(openings: seq<Opening>, k: nat)
    requires Numbered(openings) && k < |openings|
    ensures Numbered(openings[..k + 1]) && openings[k].part == NextPart(openings[..k], openings[k].hour)
    decreases |openings|
  {
    var n := |openings| - 1;
    if k < n {
      NumberedPrefix(openings[..n], k);
      assert openings[..n][..k + 1] == openings[..k + 1] && openings[..n][..k] == openings[..k];
    } else {
      assert openings[..k + 1] == openings;
    }
  }

  /** The stretch of equal hours that file k belongs to starts with part 0 and counts up. */
  lemma {:induction false} RunStart(openings: seq<Opening>, k: nat) returns (start: nat)
    requires Numbered(openings) && k < |openings|
    ensures start <= k && openings[start].part == 0 && openings[k].part == k - start
    ensures forall i :: start <= i <= k ==> openings[i].hour == openings[k].hour
  {
    NumberedPrefix(openings, k);
    if k > 0 && openings[k - 1].hour == openings[k].hour {
      start := RunStart(openings, k - 1);
    } else {
      start := k;
    }
  }

  lemma {:induction false} PartsCountUp(openings: seq<Opening>, i: nat, j: nat)
    requires Numbered(openings) && i <= j < |openings|
    requires forall m :: i <= m <= j ==> openings[m].hour == openings[i].hour
    ensures openings[j].part == openings[i].part + (j - i)
    decreases j
  {
    if i < j {
      PartsCountUp(openings, i, j - 1);
      NumberedPrefix(openings, j);
    }
  }

  /** Exactly when a file of the hour takes the name of an earlier one: when the hour comes back. */
  lemma NameReusedIffHourComesBack(openings: seq<Opening>, hour: int)
    requires Numbered(openings)
    ensures (exists j :: 0 <= j < |openings| && openings[j].hour == hour && ReplacesAt(openings, j))
        <==> ComesBack(openings, hour)
  {
    if ComesBack(openings, hour) {
      var i, j, k :| 0 <= i < j < k < |openings|
                     && openings[i].hour == hour && openings[j].hour != hour && openings[k].hour == hour;
      var si := RunStart(openings, i);
      var sk := RunStart(openings, k);
      assert ReplacesAt(openings, sk);
    } else {
      forall j | 0 <= j < |openings| && openings[j].hour == hour ensures !ReplacesAt(openings, j) {
        forall i | 0 <= i < j && openings[i].hour == hour ensures openings[i].part != openings[j].part {
          PartsCountUp(openings, i, j);
        }
      }
    }
  }

  /** The rows of the hour, in the order they were written. */
  function HourRows(openings: seq<Opening>, hour: int): seq<SnapshotRow> {
    if openings == [] then []
    else
      var n := |openings| - 1;
      HourRows(openings[..n], hour) + if openings[n].hour == hour then openings[n].rows else []
  }

  function HourParts(openings: seq<Opening>, hour: int): nat {
    if openings == [] then 0
    else HourParts(openings[..|openings| - 1], hour) + if openings[|openings| - 1].hour == hour then 1 else 0
  }

  /** The names part 0 up to part n - 1 of an hour. */
  function FirstParts(exchange: string, symbol: string, hour: int, n: nat): (paths: set<Path>)
    ensures |paths| == n
    ensures forall p :: p in paths <==> p == Path(exchange, symbol, hour, p.part, false) && p.part < n
  {
    if n == 0 then {}
    else FirstParts(exchange, symbol, hour, n - 1) + {Path(exchange, symbol, hour, n - 1, false)}
  }

  /** The files with a final name in the hour's directory. */
  function PartitionFiles(files: Files, exchange: string, symbol: string, hour: int): set<Path> {
    set p | p in files && p.exchange == exchange && p.symbol == symbol && p.hour == hour && !p.tmp
  }

  function ReadParts(files: Files, exchange: string, symbol: string, hour: int, parts: nat): seq<SnapshotRow> {
    if parts == 0 then []
    else
      var p := Path(exchange, symbol, hour, parts - 1, false);
      ReadParts(files, exchange, symbol, hour, parts - 1) + if p in files then files[p] else []
  }

  /** What a reader finds in the hour's directory: as many parts as it holds final files, in order. */
  function ReadPartition(files: Files, exchange: string, symbol: string, hour: int): seq<SnapshotRow> {
    ReadParts(files, exchange, symbol, hour, |PartitionFiles(files, exchange, symbol, hour)|)
  }

  /** The hour's final files are numbered from 0 without a gap. */
  predicate Gapless(files: Files, exchange: string, symbol: string, hour: int) {
    var paths := PartitionFiles(files, exchange, symbol, hour);
    paths == FirstParts(exchange, symbol, hour, |paths|)
  }

  /** No file of the hour was there before the writer. */
  predicate FreshHour(base: Files, hour: int) {
    forall p :: p in base && !p.tmp ==> p.hour != hour
  }

  lemma {:induction false} PartsNotSeen(openings: seq<Opening>, hour: int)
    requires forall i :: 0 <= i < |openings| ==> openings[i].hour != hour
    ensures HourParts(openings, hour) == 0
  {
    if openings != [] {
      PartsNotSeen(openings[..|openings| - 1], hour);
    }
  }

  lemma PrefixNeverReturns(openings: seq<Opening>, n: nat, hour: int)
    requires n <= |openings| && !ComesBack(openings, hour)
    ensures !ComesBack(openings[..n], hour)
  {
    assert forall i :: 0 <= i < n ==> openings[..n][i] == openings[i];
  }

  /** If the hour does not come back, the part number counts the hour's earlier files. */
  lemma {:induction false} PartCountsFiles(openings: seq<Opening>, hour: int)
    requires Numbered(openings) && !ComesBack(openings, hour)
    requires openings != [] && openings[|openings| - 1].hour == hour
    ensures openings[|openings| - 1].part == HourParts(openings[..|openings| - 1], hour)
  {
    var n := |openings| - 1;
    var init := openings[..n];
    if n > 0 && openings[n - 1].hour == hour {
      PrefixNeverReturns(openings, n, hour);
      PartCountsFiles(init, hour);
    } else {
      forall i | 0 <= i < n ensures init[i].hour != hour {
        assert i < n - 1 && openings[i].hour == hour ==> ComesBack(openings, hour);
      }
      PartsNotSeen(init, hour);
    }
  }

  lemma OneMoreFile(base: Files, exchange: string, symbol: string, openings: seq<Opening>, hour: int)
    requires openings != []
    ensures var n := |openings| - 1;
      PartitionFiles(Finalised(base, exchange, symbol, openings), exchange, symbol, hour)
      == PartitionFiles(Finalised(base, exchange, symbol, openings[..n]), exchange, symbol, hour)
         + if openings[n].hour == hour then {FinalPath(exchange, symbol, openings[n])} else {}
  {
  }

  /** If the hour does not come back, its directory holds part 0 up to the last part written. */
  lemma {:induction false} PartsOnDisk(base: Files, exchange: string, symbol: string, openings: seq<Opening>, hour: int)
    requires Numbered(openings) && !ComesBack(openings, hour) && FreshHour(base, hour)
    ensures PartitionFiles(Finalised(base, exchange, symbol, openings), exchange, symbol, hour)
         == FirstParts(exchange, symbol, hour, HourParts(openings, hour))
  {
    if openings == [] {
      assert PartitionFiles(base, exchange, symbol, hour) == {};
    } else {
      PrefixNeverReturns(openings, |openings| - 1, hour);
      PartsOnDisk(base, exchange, symbol, openings[..|openings| - 1], hour);
      OneMoreFile(base, exchange, symbol, openings, hour);
      if openings[|openings| - 1].hour == hour {
        PartCountsFiles(openings, hour);
      }
    }
  }

  lemma {:induction false} ReadPartsFrame(a: Files, b: Files, exchange: string, symbol: string, hour: int, parts: nat)
    requires forall k :: 0 <= k < parts ==>
      var p := Path(exchange, symbol, hour, k, false); (p in a <==> p in b) && (p in a ==> a[p] == b[p])
    ensures ReadParts(a, exchange, symbol, hour, parts) == ReadParts(b, exchange, symbol, hour, parts)
  {
    if parts > 0 {
      var p := Path(exchange, symbol, hour, parts - 1, false);
      ReadPartsFrame(a, b, exchange, symbol, hour, parts - 1);
    }
  }

  lemma {:induction false} PartsHoldRows(base: Files, exchange: string, symbol: string, openings: seq<Opening>,
                                         hour: int)
    requires Numbered(openings) && !ComesBack(openings, hour)
    ensures ReadParts(Finalised(base, exchange, symbol, openings), exchange, symbol, hour, HourParts(openings, hour))
         == HourRows(openings, hour)
  {
    if openings != [] {
      var n := |openings| - 1;
      var init := openings[..n];
      PrefixNeverReturns(openings, n, hour);
      PartsHoldRows(base, exchange, symbol, init, hour);
      if openings[n].hour == hour {
        PartCountsFiles(openings, hour);
      }
      ReadPartsFrame(Finalised(base, exchange, symbol, init), Finalised(base, exchange, symbol, openings),
                     exchange, symbol, hour, HourParts(init, hour));
    }
  }

  /** Conservation on disk: if the hour does not come back, its directory read in order is exactly
      the rows written for the hour, in the order they were written. */
  lemma HourOnDisk(base: Files, exchange: string, symbol: string, openings: seq<Opening>, hour: int)
    requires Numbered(openings) && !ComesBack(openings, hour) && FreshHour(base, hour)
    ensures ReadPartition(Finalised(base, exchange, symbol, openings), exchange, symbol, hour)
         == HourRows(openings, hour)
    ensures Gapless(Finalised(base, exchange, symbol, openings), exchange, symbol, hour)
  {
    PartsOnDisk(base, exchange, symbol, openings, hour);
    PartsHoldRows(base, exchange, symbol, openings, hour);
  }

  lemma PartitionOfOwn(files: Files, own: Files, exchange: string, symbol: string, hour: int)
    requires own == Own(files, exchange, symbol)
    ensures PartitionFiles(files, exchange, symbol, hour) == PartitionFiles(own, exchange, symbol, hour)
    ensures ReadPartition(files, exchange, symbol, hour) == ReadPartition(own, exchange, symbol, hour)
  {
    ReadPartsFrame(files, own, exchange, symbol, hour, |PartitionFiles(files, exchange, symbol, hour)|);
  }

  /** With the last file still open, its directory lacks just what that file holds. */
  lemma OpenFileIsMissing(base: Files, exchange: string, symbol: string, openings: seq<Opening>, hour: int)
    requires Numbered(openings) && !ComesBack(openings, hour) && FreshHour(base, hour) && openings != []
    ensures var last := openings[|openings| - 1];
      HourRows(openings, hour) == ReadPartition(OnDisk(base, exchange, symbol, openings, true), exchange, symbol, hour)
                                  + if last.hour == hour then last.rows else []
  {
    var init := openings[..|openings| - 1];
    var finalised := Finalised(base, exchange, symbol, init);
    var open := OnDisk(base, exchange, symbol, openings, true);
    PrefixNeverReturns(openings, |init|, hour);
    HourOnDisk(base, exchange, symbol, init, hour);
    assert PartitionFiles(open, exchange, symbol, hour) == PartitionFiles(finalised, exchange, symbol, hour);
    ReadPartsFrame(open, finalised, exchange, symbol, hour, |PartitionFiles(open, exchange, symbol, hour)|);
  }

  /** A crash at any moment: of an hour that did not come back, the final files hold everything but
      what is in the open .tmp, and all of that was written within one checkpoint interval. */
  lemma CrashLosesOnlyTheOpenFile(w: RotatingWriter, hour: int)
    requires w.Valid() && FreshHour(w.base, hour) && !ComesBack(w.openings, hour)
    ensures var found := ReadPartition(w.fs.files, w.exchange, w.symbol, hour);
      if w.tmpPath.None? || w.hourKey != Some(hour) then found == HourRows(w.openings, hour)
      else
        var o := w.openings[|w.openings| - 1];
        && w.tmpPath.value in w.fs.files && w.fs.files[w.tmpPath.value] == o.rows
        && HourRows(w.openings, hour) == found + o.rows
        && o.openedAt == w.openedAt && Timely(o, w.checkpointInterval)
  {
    var own := Own(w.fs.files, w.exchange, w.symbol);
    PartitionOfOwn(w.fs.files, own, w.exchange, w.symbol, hour);
    if w.tmpPath.None? {
      HourOnDisk(w.base, w.exchange, w.symbol, w.openings, hour);
    } else {
      OpenFileIsMissing(w.base, w.exchange, w.symbol, w.openings, hour);
      assert w.tmpPath.value in own;
    }
  }

  /** The number of rows in all the files. */
  ghost function RowCount(files: Files): nat
    decreases |files|
  {
    if files == map[] then 0
    else
      assert files.Keys != {};
      var p := Chosen(files.Keys);
      |files[p]| + RowCount(files - {p})
  }

  lemma {:induction false} RowCountWithout(files: Files, p: Path)
    requires p in files
    ensures RowCount(files) == |files[p]| + RowCount(files - {p})
    decreases |files|
  {
    assert files.Keys != {};
    var q := Chosen(files.Keys);
    if q != p {
      RowCountWithout(files - {q}, p);
      RowCountWithout(files - {p}, q);
      assert files - {q} - {p} == files - {p} - {q};
    }
  }

  lemma RowCountUpdated(files: Files, p: Path, rows: seq<SnapshotRow>)
    ensures RowCount(files[p := rows]) == |rows| + RowCount(files) - if p in files then |files[p]| else 0
  {
    RowCountWithout(files[p := rows], p);
    if p in files {
      RowCountWithout(files, p);
      assert files[p := rows] - {p} == files - {p};
    } else {
      assert files[p := rows] - {p} == files;
    }
  }

  lemma {:induction false} RowCountSplit(files: Files, paths: set<Path>)
    requires paths <= files.Keys
    ensures RowCount(files) == RowCount(map p | p in paths :: files[p]) + RowCount(files - paths)
    decreases |paths|
  {
    var part := map p | p in paths :: files[p];
    if paths == {} {
      assert part == map[] && files - paths == files;
    } else {
      var q := Chosen(paths);
      RowCountSplit(files - {q}, paths - {q});
      assert (map p | p in paths - {q} :: (files - {q})[p]) == part - {q};
      assert files - {q} - (paths - {q}) == files - paths;
      RowCountWithout(files, q);
      RowCountWithout(part, q);
    }
  }

  /** The hour's directory, its final files only. */
  function Partition(files: Files, exchange: string, symbol: string, hour: int): Files {
    map p | p in PartitionFiles(files, exchange, symbol, hour) :: files[p]
  }

  lemma PartitionStep(base: Files, exchange: string, symbol: string, openings: seq<Opening>, hour: int)
    requires openings != []
    ensures var n := |openings| - 1;
      var before := Partition(Finalised(base, exchange, symbol, openings[..n]), exchange, symbol, hour);
      Partition(Finalised(base, exchange, symbol, openings), exchange, symbol, hour)
      == if openings[n].hour == hour then before[FinalPath(exchange, symbol, openings[n]) := openings[n].rows]
         else before
  {
  }

  lemma {:induction false} NamesTaken(base: Files, exchange: string, symbol: string, openings: seq<Opening>, p: Path)
    requires p == Path(exchange, symbol, p.hour, p.part, false)
    ensures p in Finalised(base, exchange, symbol, openings) <==> p in base || SomeNamed(openings, p)
  {
    if openings != [] {
      var n := |openings| - 1;
      NamesTaken(base, exchange, symbol, openings[..n], p);
      OneMoreNamed(openings, p);
    }
  }

  /** Some of these files has this name. */
  predicate SomeNamed(openings: seq<Opening>, p: Path) {
    exists i :: 0 <= i < |openings| && openings[i].hour == p.hour && openings[i].part == p.part
  }

  lemma OneMoreNamed(openings: seq<Opening>, p: Path)
    requires openings != []
    ensures var n := |openings| - 1;
      SomeNamed(openings, p) <==>
      SomeNamed(openings[..n], p) || (openings[n].hour == p.hour && openings[n].part == p.part)
  {
    assert forall i :: 0 <= i < |openings| - 1 ==> openings[..|openings| - 1][i] == openings[i];
  }

  /** What is found under a name: rows of one of these files, or what was there before them all. */
  lemma {:induction false} NamesHoldRows(base: Files, exchange: string, symbol: string, openings: seq<Opening>, p: Path)
    requires NoEmptyFile(openings) && p == Path(exchange, symbol, p.hour, p.part, false)
    requires p in Finalised(base, exchange, symbol, openings)
    ensures var rows := Finalised(base, exchange, symbol, openings)[p];
      if SomeNamed(openings, p) then rows != [] else p in base && rows == base[p]
  {
    if openings != [] {
      var n := |openings| - 1;
      assert forall i :: 0 <= i < n ==> openings[..n][i] == openings[i];
      OneMoreNamed(openings, p);
      if p != FinalPath(exchange, symbol, openings[n]) {
        NamesHoldRows(base, exchange, symbol, openings[..n], p);
      }
    }
  }

  /** File j takes the name of a file with rows that an earlier writer left. */
  predicate TakesOver(base: Files, exchange: string, symbol: string, o: Opening) {
    var p := FinalPath(exchange, symbol, o);
    p in base && base[p] != []
  }

  /** Some file of the hour replaced one with rows, of this writer or of an earlier one. */
  predicate SomeReplaced(base: Files, exchange: string, symbol: string, openings: seq<Opening>, hour: int) {
    exists j :: 0 <= j < |openings| && openings[j].hour == hour
                && (ReplacesAt(openings, j) || TakesOver(base, exchange, symbol, openings[j]))
  }

  lemma OneMoreReplaced(base: Files, exchange: string, symbol: string, openings: seq<Opening>, hour: int)
    requires openings != []
    ensures var n := |openings| - 1;
      SomeReplaced(base, exchange, symbol, openings, hour) <==>
      || SomeReplaced(base, exchange, symbol, openings[..n], hour)
      || (openings[n].hour == hour && (ReplacesAt(openings, n) || TakesOver(base, exchange, symbol, openings[n])))
  {
    var n := |openings| - 1;
    var init := openings[..n];
    forall j | 0 <= j < n ensures init[j] == openings[j] && (ReplacesAt(init, j) <==> ReplacesAt(openings, j)) {
      assert forall i :: 0 <= i <= j ==> init[i] == openings[i];
    }
  }

  /** Finalising the last file costs rows exactly when it takes the name of a file that has some. */
  lemma LastFileCosts(base: Files, exchange: string, symbol: string, openings: seq<Opening>)
    requires openings != [] && NoEmptyFile(openings)
    ensures var n := |openings| - 1;
      var files := Finalised(base, exchange, symbol, openings[..n]);
      var p := FinalPath(exchange, symbol, openings[n]);
      (p in files && files[p] != []) <==> ReplacesAt(openings, n) || TakesOver(base, exchange, symbol, openings[n])
  {
    var n := |openings| - 1;
    var init := openings[..n];
    var p := FinalPath(exchange, symbol, openings[n]);
    assert forall i :: 0 <= i < n ==> init[i] == openings[i];
    assert SomeNamed(init, p) <==> ReplacesAt(openings, n);
    NamesTaken(base, exchange, symbol, init, p);
    if p in Finalised(base, exchange, symbol, init) {
      NamesHoldRows(base, exchange, symbol, init, p);
    }
  }

  /** The hour's final files hold at most what was there before and what was written, and less exactly
      when one of them replaced a file with rows. */
  lemma {:induction false} RowsLostIffReplaced(base: Files, exchange: string, symbol: string, openings: seq<Opening>,
                                               hour: int)
    requires NoEmptyFile(openings)
    ensures var kept := RowCount(Partition(Finalised(base, exchange, symbol, openings), exchange, symbol, hour));
      var all := RowCount(Partition(base, exchange, symbol, hour)) + |HourRows(openings, hour)|;
      kept <= all && (kept < all <==> SomeReplaced(base, exchange, symbol, openings, hour))
  {
    if openings != [] {
      var n := |openings| - 1;
      var init := openings[..n];
      assert forall i :: 0 <= i < n ==> init[i] == openings[i];
      RowsLostIffReplaced(base, exchange, symbol, init, hour);
      OneMoreReplaced(base, exchange, symbol, openings, hour);
      PartitionStep(base, exchange, symbol, openings, hour);
      if openings[n].hour == hour {
        var before := Partition(Finalised(base, exchange, symbol, init), exchange, symbol, hour);
        var p := FinalPath(exchange, symbol, openings[n]);
        RowCountUpdated(before, p, openings[n].rows);
        LastFileCosts(base, exchange, symbol, openings);
      }
    }
  }

  /** Some file was opened for the hour. */
  predicate Opens(openings: seq<Opening>, hour: int) {
    exists i :: 0 <= i < |openings| && openings[i].hour == hour
  }

  /** What an earlier writer leaves of an hour: part 0, if it left anything, and no empty file. */
  predicate LeftByWriter(base: Files, exchange: string, symbol: string, hour: int) {
    && (forall p :: p in PartitionFiles(base, exchange, symbol, hour) ==> base[p] != [])
    && (PartitionFiles(base, exchange, symbol, hour) != {} ==> Path(exchange, symbol, hour, 0, false) in base)
  }

  /** The first file of an hour is part 0, which replaces the part 0 of an earlier writer. */
  lemma RestartTakesOverIff(base: Files, exchange: string, symbol: string, openings: seq<Opening>, hour: int)
    requires Numbered(openings) && LeftByWriter(base, exchange, symbol, hour)
    ensures (exists j :: 0 <= j < |openings| && openings[j].hour == hour
                         && TakesOver(base, exchange, symbol, openings[j]))
        <==> Opens(openings, hour) && PartitionFiles(base, exchange, symbol, hour) != {}
  {
    forall j | 0 <= j < |openings| && openings[j].hour == hour && TakesOver(base, exchange, symbol, openings[j])
      ensures PartitionFiles(base, exchange, symbol, hour) != {}
    {
      assert FinalPath(exchange, symbol, openings[j]) in PartitionFiles(base, exchange, symbol, hour);
    }
    if Opens(openings, hour) && PartitionFiles(base, exchange, symbol, hour) != {} {
      var i :| 0 <= i < |openings| && openings[i].hour == hour;
      var start := RunStart(openings, i);
      assert FinalPath(exchange, symbol, openings[start]) in PartitionFiles(base, exchange, symbol, hour);
      assert TakesOver(base, exchange, symbol, openings[start]);
    }
  }

  /** Exactly when rows of the hour are lost on disk, whatever was there before: when the writer comes
      back to the hour, or opens it at all after an earlier writer, before a restart, left files of it. */
  lemma RowsLostIffHourComesBack(base: Files, exchange: string, symbol: string, openings: seq<Opening>, hour: int)
    requires Numbered(openings) && NoEmptyFile(openings) && LeftByWriter(base, exchange, symbol, hour)
    ensures var kept := RowCount(Partition(Finalised(base, exchange, symbol, openings), exchange, symbol, hour));
      var all := RowCount(Partition(base, exchange, symbol, hour)) + |HourRows(openings, hour)|;
      && kept <= all
      && (kept < all <==>
            || ComesBack(openings, hour)
            || (Opens(openings, hour) && PartitionFiles(base, exchange, symbol, hour) != {}))
  {
    RowsLostIffReplaced(base, exchange, symbol, openings, hour);
    NameReusedIffHourComesBack(openings, hour);
    RestartTakesOverIff(base, exchange, symbol, openings, hour);
  }

  /** What a writer leaves of an hour is what the next one may find there. */
  lemma {:induction false} WriterLeavesPartZero(base: Files, exchange: string, symbol: string, openings: seq<Opening>,
                                                hour: int)
    requires Numbered(openings) && NoEmptyFile(openings) && LeftByWriter(base, exchange, symbol, hour)
    ensures LeftByWriter(Finalised(base, exchange, symbol, openings), exchange, symbol, hour)
  {
    if openings != [] {
      var n := |openings| - 1;
      assert forall i :: 0 <= i < n ==> openings[..n][i] == openings[i];
      WriterLeavesPartZero(base, exchange, symbol, openings[..n], hour);
      OneMoreFile(base, exchange, symbol, openings, hour);
      if openings[n].hour == hour {
        PartZeroStays(base, exchange, symbol, openings, hour);
      }
    }
  }

  lemma PartZeroStays(base: Files, exchange: string, symbol: string, openings: seq<Opening>, hour: int)
    requires Numbered(openings) && openings != [] && openings[|openings| - 1].hour == hour
    ensures Path(exchange, symbol, hour, 0, false) in Finalised(base, exchange, symbol, openings)
  {
    var start := RunStart(openings, |openings| - 1);
    var p := Path(exchange, symbol, hour, 0, false);
    assert SomeNamed(openings, p);
    NamesTaken(base, exchange, symbol, openings, p);
  }

  lemma ThreeFiles(exchange: string, symbol: string, a: Opening, b: Opening, c: Opening)
    requires a.hour == c.hour != b.hour && a.part == c.part
    ensures Finalised(map[], exchange, symbol, [a, b, c])
         == map[FinalPath(exchange, symbol, b) := b.rows, FinalPath(exchange, symbol, c) := c.rows]
  {
    assert [a][..0] == [] && [a, b][..1] == [a] && [a, b, c][..2] == [a, b];
    var pa, pb := FinalPath(exchange, symbol, a), FinalPath(exchange, symbol, b);
    assert Finalised(map[], exchange, symbol, [a]) == map[pa := a.rows];
    assert Finalised(map[], exchange, symbol, [a, b]) == map[pa := a.rows, pb := b.rows];
  }

  ghost predicate AllOwn(files: Files, exchange: string, symbol: string) {
    forall e, s {:trigger Own(files, e, s)} :: (e, s) != (exchange, symbol) ==> Own(files, e, s) == map[]
  }

  lemma OwnIsAll(files: Files, exchange: string, symbol: string)
    requires AllOwn(files, exchange, symbol)
    ensures Own(files, exchange, symbol) == files
  {
    forall p | p in files ensures p.exchange == exchange && p.symbol == symbol {
      assert p in Own(files, p.exchange, p.symbol);
    }
  }

  method WriteToNewHour(w: RotatingWriter, row: SnapshotRow, now: real)
    requires w.Valid() && AllOwn(w.fs.files, w.exchange, w.symbol)
    requires w.hourKey != Some(HourOf(row)) && (w.tmpPath.Some? ==> w.openedAt <= now)
    requires row.exchange == w.exchange && row.symbol == w.symbol
    modifies w, w.fs
    ensures w.Valid() && AllOwn(w.fs.files, w.exchange, w.symbol)
    ensures w.hourKey == Some(HourOf(row)) && w.openedAt == now
    ensures w.openings == old(w.openings) + [Opening(HourOf(row), 0, now, [row], [now])]
  {
    w.WriteBatch([row], now);
    assert Opening(HourOf(row), 0, now, [], []).Longer([row], now) == Opening(HourOf(row), 0, now, [row], [now]);
  }

  lemma ThreeBatchesOnDisk(w: RotatingWriter, a: SnapshotRow, b: SnapshotRow, c: SnapshotRow, now: real)
    requires w.Valid() && w.tmpPath == None && w.base == map[] && AllOwn(w.fs.files, w.exchange, w.symbol)
    requires HourOf(a) == HourOf(c) != HourOf(b)
    requires w.openings == [Opening(HourOf(a), 0, now, [a], [now]), Opening(HourOf(b), 0, now, [b], [now]),
                            Opening(HourOf(c), 0, now, [c], [now])]
    ensures w.fs.files == map[Path(w.exchange, w.symbol, HourOf(b), 0, false) := [b],
                              Path(w.exchange, w.symbol, HourOf(a), 0, false) := [c]]
  {
    OwnIsAll(w.fs.files, w.exchange, w.symbol);
    ThreeFiles(w.exchange, w.symbol, w.openings[0], w.openings[1], w.openings[2]);
  }

  /** Three batches through one writer, the last for the hour of the first: when the writer is closed,
      the files hold the second and the third batch, and the first is gone. */
  method ReturnToEarlierHour(a: SnapshotRow, b: SnapshotRow, c: SnapshotRow, interval: real, now: real)
    returns (fs: FileSystem)
    requires HourOf(a) == HourOf(c) != HourOf(b)
    requires a.exchange == b.exchange == c.exchange && a.symbol == b.symbol == c.symbol
    ensures fs.files == map[Path(a.exchange, a.symbol, HourOf(b), 0, false) := [b],
                            Path(a.exchange, a.symbol, HourOf(a), 0, false) := [c]]
  {
    fs := new FileSystem();
    var w := new RotatingWriter(fs, a.exchange, a.symbol, interval);
    assert w.base == map[];
    WriteToNewHour(w, a, now);
    WriteToNewHour(w, b, now);
    WriteToNewHour(w, c, now);
    w.Close();
    ThreeBatchesOnDisk(w, a, b, c, now);
  }
}
