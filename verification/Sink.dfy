// ParquetSink (src/l2_pipeline/sinks/parquet_sink.py): the batching loop and the flush that spreads a
// batch over its partitions.
module Sink {
  import opened BookTypes
  import opened Collections
  import opened Rows
  import opened RowQueue
  import opened Writer
  import opened FileNames

  datatype GroupKey = GroupKey(exchange: string, symbol: string, hour: int)

  /** The partition a row belongs to. */
  function KeyOf(row: SnapshotRow): GroupKey {
    GroupKey(row.exchange, row.symbol, HourOf(row))
  }

  function RowsOf(rows: seq<SnapshotRow>, key: GroupKey): seq<SnapshotRow> {
    if rows == [] then []
    else
      var n := |rows| - 1;
      RowsOf(rows[..n], key) + if KeyOf(rows[n]) == key then [rows[n]] else []
  }

  /** The keys of a dict filled row by row: each once, where it first occurs. */
  function KeysOf(rows: seq<SnapshotRow>): seq<GroupKey> {
    if rows == [] then []
    else
      var n := |rows| - 1;
      var before := KeysOf(rows[..n]);
      if KeyOf(rows[n]) in before then before else before + [KeyOf(rows[n])]
  }

  lemma {:induction false} RowsOfConcat(a: seq<SnapshotRow>, b: seq<SnapshotRow>, key: GroupKey)
    ensures RowsOf(a + b, key) == RowsOf(a, key) + RowsOf(b, key)
  {
    if b == [] {
      assert a + b == a;
    } else {
      var n := |b| - 1;
      assert (a + b)[..|a| + n] == a + b[..n];
      RowsOfConcat(a, b[..n], key);
    }
  }

  lemma {:induction false} RowsOfAre(rows: seq<SnapshotRow>, key: GroupKey)
    ensures forall row :: row in RowsOf(rows, key) <==> row in rows && KeyOf(row) == key
  {
    if rows != [] {
      var n := |rows| - 1;
      RowsOfAre(rows[..n], key);
      assert rows == rows[..n] + [rows[n]];
    }
  }

  lemma {:induction false} KeysOfAre(rows: seq<SnapshotRow>)
    ensures forall i, j :: 0 <= i < j < |KeysOf(rows)| ==> KeysOf(rows)[i] != KeysOf(rows)[j]
    ensures forall key :: key in KeysOf(rows) <==> RowsOf(rows, key) != []
  {
    if rows != [] {
      KeysOfAre(rows[..|rows| - 1]);
    }
  }

  lemma OnlyItsKeys(rows: seq<SnapshotRow>, key: GroupKey)
    ensures key !in KeysOf(rows) ==> RowsOf(rows, key) == []
  {
    KeysOfAre(rows);
  }

  ghost predicate Grouped(rows: seq<SnapshotRow>, keys: seq<GroupKey>, groups: map<GroupKey, seq<SnapshotRow>>) {
    && keys == KeysOf(rows)
    && (forall key :: key in keys <==> key in groups)
    && (forall key :: key in groups ==> groups[key] == RowsOf(rows, key))
  }

  lemma OneMoreGrouped(rows: seq<SnapshotRow>, row: SnapshotRow, key: GroupKey)
    ensures RowsOf(rows + [row], key) == RowsOf(rows, key) + if KeyOf(row) == key then [row] else []
    ensures KeysOf(rows + [row]) == KeysOf(rows) + if KeyOf(row) in KeysOf(rows) then [] else [KeyOf(row)]
  {
    assert (rows + [row])[..|rows|] == rows;
  }

  lemma GroupOneMore(rows: seq<SnapshotRow>, row: SnapshotRow, keys: seq<GroupKey>,
                     groups: map<GroupKey, seq<SnapshotRow>>)
    requires Grouped(rows, keys, groups)
    ensures var key := KeyOf(row);
      if key in groups then Grouped(rows + [row], keys, groups[key := groups[key] + [row]])
      else Grouped(rows + [row], keys + [key], groups[key := [row]])
  {
    OnlyItsKeys(rows, KeyOf(row));
    OneMoreGrouped(rows, row, KeyOf(row));
    forall key | key in groups
      ensures RowsOf(rows + [row], key) == RowsOf(rows, key) + if KeyOf(row) == key then [row] else []
    {
      OneMoreGrouped(rows, row, key);
    }
  }

  lemma GroupOf(rows: seq<SnapshotRow>, keys: seq<GroupKey>, groups: map<GroupKey, seq<SnapshotRow>>, i: nat)
    requires Grouped(rows, keys, groups) && i < |keys|
    ensures keys[i] in groups && groups[keys[i]] == RowsOf(rows, keys[i])
  {
  }

  /** The groups dict: its keys in insertion order, and the rows of each in arrival order. */
  method GroupRows(rows: seq<SnapshotRow>) returns (keys: seq<GroupKey>, groups: map<GroupKey, seq<SnapshotRow>>)
    ensures Grouped(rows, keys, groups)
  {
    keys, groups := [], map[];
    for i := 0 to |rows|
      invariant Grouped(rows[..i], keys, groups)
    {
      GroupOneMore(rows[..i], rows[i], keys, groups);
      assert rows[..i + 1] == rows[..i] + [rows[i]];
      var key := KeyOf(rows[i]);
      if key in groups {
        groups := groups[key := groups[key] + [rows[i]]];
      } else {
        keys := keys + [key];
        groups := groups[key := [rows[i]]];
      }
    }
    assert rows[..|rows|] == rows;
  }

  /** The rows of every instrument arrive with hours that do not go back. */
  predicate Chronological(rows: seq<SnapshotRow>) {
    forall i, j :: 0 <= i < j < |rows| && rows[i].exchange == rows[j].exchange && rows[i].symbol == rows[j].symbol
                   ==> HourOf(rows[i]) <= HourOf(rows[j])
  }

  /** The groups of one instrument are then taken in the order of their hours. */
  lemma {:induction false} KeysInHourOrder(rows: seq<SnapshotRow>, i: nat, j: nat)
    requires Chronological(rows) && i < j < |KeysOf(rows)|
    requires KeysOf(rows)[i].exchange == KeysOf(rows)[j].exchange && KeysOf(rows)[i].symbol == KeysOf(rows)[j].symbol
    ensures KeysOf(rows)[i].hour <= KeysOf(rows)[j].hour
  {
    var n := |rows| - 1;
    var init := rows[..n];
    if j < |KeysOf(init)| {
      KeysInHourOrder(init, i, j);
    } else {
      var key := KeysOf(init)[i];
      KeysOfAre(init);
      RowsOfAre(init, key);
      var row := RowsOf(init, key)[0];
      assert row in RowsOf(init, key);
      var k :| 0 <= k < n && rows[k] == row;
    }
  }

  predicate Ascending(openings: seq<Opening>) {
    forall i, j :: 0 <= i <= j < |openings| ==> openings[i].hour <= openings[j].hour
  }

  lemma AscendingNeverReturns(openings: seq<Opening>, hour: int)
    requires Ascending(openings)
    ensures !ComesBack(openings, hour)
  {
  }

  lemma {:induction false} HourRowsAre(openings: seq<Opening>, hour: int)
    ensures forall i :: 0 <= i < |openings| && openings[i].hour == hour ==>
              forall row :: row in openings[i].rows ==> row in HourRows(openings, hour)
  {
    if openings != [] {
      HourRowsAre(openings[..|openings| - 1], hour);
      assert forall i :: 0 <= i < |openings| - 1 ==> openings[..|openings| - 1][i] == openings[i];
    }
  }

  /** time.monotonic: never goes back. */
  class Clock {
    var now: real

    method Read() returns (t: real)
      modifies this
      ensures t == now && old(now) <= now
    {
      var elapsed: real :| 0.0 <= elapsed;
      now := now + elapsed;
      return now;
    }
  }

  lemma BatchGoesToItsHour(before: seq<Opening>, after: seq<Opening>, rows: seq<SnapshotRow>, hour: int)
    requires rows != [] && Extended(before, after, rows)
    ensures HourRows(after, hour) == HourRows(before, hour) + if hour == HourOf(rows[0]) then rows else []
  {
    var n := |after| - 1;
    if |after| > |before| {
      assert after[..n] == before;
    }
  }

  lemma StaysAscending(before: seq<Opening>, after: seq<Opening>, rows: seq<SnapshotRow>)
    requires rows != [] && Extended(before, after, rows)
    requires Ascending(before) && (before != [] ==> before[|before| - 1].hour <= HourOf(rows[0]))
    ensures Ascending(after)
  {
    forall i, j | 0 <= i <= j < |after| ensures after[i].hour <= after[j].hour {
      assert i < |before| ==> after[i].hour == before[i].hour <= before[|before| - 1].hour;
    }
  }

  lemma ChronologicalSuffix(a: seq<SnapshotRow>, b: seq<SnapshotRow>)
    requires Chronological(a + b)
    ensures Chronological(b)
  {
    forall i, j | 0 <= i < j < |b| && b[i].exchange == b[j].exchange && b[i].symbol == b[j].symbol
      ensures HourOf(b[i]) <= HourOf(b[j])
    {
      assert (a + b)[|a| + i] == b[i] && (a + b)[|a| + j] == b[j];
    }
  }

  /** The files each instrument's writer has opened. */
  type Ledger = map<(string, string), seq<Opening>>

  /** What has been written for a partition, in the order it was written. */
  function Written(ledger: Ledger, key: GroupKey): seq<SnapshotRow> {
    var k := (key.exchange, key.symbol);
    if k in ledger then HourRows(ledger[k], key.hour) else []
  }

  /** Midway through the flush of these rows: of them, exactly the groups done so far have reached
      their partitions, behind everything flushed before. */
  ghost predicate InPlace(ledger: Ledger, flushed: seq<SnapshotRow>, done: seq<GroupKey>, rows: seq<SnapshotRow>) {
    forall key {:trigger Written(ledger, key)} ::
      Written(ledger, key) == RowsOf(flushed, key) + if key in done then RowsOf(rows, key) else []
  }

  ghost predicate Accounted(ledger: Ledger, flushed: seq<SnapshotRow>, done: seq<GroupKey>, rows: seq<SnapshotRow>) {
    && InPlace(ledger, flushed, done, rows)
    && (forall k :: k in ledger ==> NoEmptyFile(ledger[k]))
    && (Chronological(flushed + rows) ==> forall k :: k in ledger ==> Ascending(ledger[k]))
  }

  /** When rows arrive in hour order, the next group is never for an earlier hour than the open file. */
  lemma LastHourFits(ledger: Ledger, flushed: seq<SnapshotRow>, rows: seq<SnapshotRow>, i: nat, openings: seq<Opening>)
    requires i < |KeysOf(rows)| && Accounted(ledger, flushed, KeysOf(rows)[..i], rows)
    requires Chronological(flushed + rows) && openings != []
    requires var key := KeysOf(rows)[i];
      (key.exchange, key.symbol) in ledger && ledger[(key.exchange, key.symbol)] == openings
    ensures openings[|openings| - 1].hour <= KeysOf(rows)[i].hour
  {
    var key := KeysOf(rows)[i];
    var last := openings[|openings| - 1];
    var k := GroupKey(key.exchange, key.symbol, last.hour);
    HourRowsAre(openings, last.hour);
    var row := last.rows[0];
    assert row in Written(ledger, k);
    ChronologicalSuffix(flushed, rows);
    if k in KeysOf(rows)[..i] {
      var m :| 0 <= m < i && KeysOf(rows)[..i][m] == k;
      KeysInHourOrder(rows, m, i);
    } else {
      RowsOfAre(flushed, k);
      KeysOfAre(rows);
      RowsOfAre(rows, key);
      var next := RowsOf(rows, key)[0];
      assert next in RowsOf(rows, key);
      var a :| 0 <= a < |flushed| && flushed[a] == row;
      var b :| 0 <= b < |rows| && rows[b] == next;
      assert (flushed + rows)[a] == row && (flushed + rows)[|flushed| + b] == next;
    }
  }

  lemma GroupWritten(before: Ledger, after: Ledger, key: GroupKey, group: seq<SnapshotRow>, p: GroupKey)
    requires GroupTaken(before, after, key, group)
    ensures Written(after, p) == Written(before, p) + if p == key then group else []
  {
    var k := (key.exchange, key.symbol);
    if (p.exchange, p.symbol) == k {
      BatchGoesToItsHour(if k in before then before[k] else [], after[k], group, p.hour);
    }
  }

  ghost predicate OfOneKey(group: seq<SnapshotRow>, key: GroupKey) {
    && (group != [] ==> HourOf(group[0]) == key.hour)
    && forall row :: row in group ==> KeyOf(row) == key
  }

  lemma TakenBy(before: Ledger, ready: Ledger, after: Ledger, key: GroupKey, group: seq<SnapshotRow>)
    requires group != [] && HourOf(group[0]) == key.hour
    requires var k := (key.exchange, key.symbol);
      && k in ready && ready == (if k in before then before else before[k := []])
      && k in after && after == ready[k := after[k]] && Extended(ready[k], after[k], group)
    ensures GroupTaken(before, after, key, group)
  {
  }

  lemma GroupIsUniform(rows: seq<SnapshotRow>, i: nat)
    requires i < |KeysOf(rows)|
    ensures var key := KeysOf(rows)[i];
      RowsOf(rows, key) != [] && OfOneKey(RowsOf(rows, key), key)
  {
    KeysOfAre(rows);
    RowsOfAre(rows, KeysOf(rows)[i]);
    assert RowsOf(rows, KeysOf(rows)[i])[0] in RowsOf(rows, KeysOf(rows)[i]);
  }

  lemma PartitionInPlace(before: Ledger, after: Ledger, flushed: seq<SnapshotRow>, rows: seq<SnapshotRow>,
                         done: seq<GroupKey>, key: GroupKey, p: GroupKey)
    requires key !in done && GroupTaken(before, after, key, RowsOf(rows, key))
    requires Written(before, p) == RowsOf(flushed, p) + if p in done then RowsOf(rows, p) else []
    ensures Written(after, p) == RowsOf(flushed, p) + if p in done + [key] then RowsOf(rows, p) else []
  {
    GroupWritten(before, after, key, RowsOf(rows, key), p);
  }

  lemma GroupInPlace(before: Ledger, after: Ledger, flushed: seq<SnapshotRow>, rows: seq<SnapshotRow>,
                     done: seq<GroupKey>, key: GroupKey)
    requires InPlace(before, flushed, done, rows) && key !in done
    requires GroupTaken(before, after, key, RowsOf(rows, key))
    ensures InPlace(after, flushed, done + [key], rows)
  {
    forall p ensures Written(after, p) == RowsOf(flushed, p) + if p in done + [key] then RowsOf(rows, p) else [] {
      assert Written(before, p) == RowsOf(flushed, p) + if p in done then RowsOf(rows, p) else [];
      PartitionInPlace(before, after, flushed, rows, done, key, p);
    }
  }

  lemma StaysNonEmpty(before: seq<Opening>, after: seq<Opening>, rows: seq<SnapshotRow>)
    requires rows != [] && Extended(before, after, rows) && NoEmptyFile(before)
    ensures NoEmptyFile(after)
  {
    assert |after| == |before| ==> forall i :: 0 <= i < |after| - 1 ==> after[..|after| - 1][i] == before[i];
  }

  lemma GroupInHourOrder(before: Ledger, after: Ledger, flushed: seq<SnapshotRow>, rows: seq<SnapshotRow>, i: nat)
    requires i < |KeysOf(rows)| && Accounted(before, flushed, KeysOf(rows)[..i], rows)
    requires GroupTaken(before, after, KeysOf(rows)[i], RowsOf(rows, KeysOf(rows)[i]))
    requires Chronological(flushed + rows)
    ensures forall k :: k in after ==> Ascending(after[k])
  {
    var key := KeysOf(rows)[i];
    var k := (key.exchange, key.symbol);
    var openings := if k in before then before[k] else [];
    if openings != [] {
      LastHourFits(before, flushed, rows, i, openings);
    }
    StaysAscending(openings, after[k], RowsOf(rows, key));
  }

  /** The group was written through its instrument's writer, which may be new. */
  ghost predicate GroupTaken(before: Ledger, after: Ledger, key: GroupKey, group: seq<SnapshotRow>) {
    var k := (key.exchange, key.symbol);
    && group != [] && HourOf(group[0]) == key.hour
    && k in after && after == before[k := after[k]]
    && Extended(if k in before then before[k] else [], after[k], group)
  }

  lemma KeyIsNext(rows: seq<SnapshotRow>, i: nat)
    requires i < |KeysOf(rows)|
    ensures var keys := KeysOf(rows); keys[i] !in keys[..i] && keys[..i + 1] == keys[..i] + [keys[i]]
  {
    KeysOfAre(rows);
  }

  /** Writing one group accounts for that group. */
  lemma GroupAccounted(before: Ledger, after: Ledger, flushed: seq<SnapshotRow>, rows: seq<SnapshotRow>, i: nat)
    requires i < |KeysOf(rows)| && Accounted(before, flushed, KeysOf(rows)[..i], rows)
    requires GroupTaken(before, after, KeysOf(rows)[i], RowsOf(rows, KeysOf(rows)[i]))
    ensures Accounted(after, flushed, KeysOf(rows)[..i + 1], rows)
  {
    var keys := KeysOf(rows);
    var key := keys[i];
    var k := (key.exchange, key.symbol);
    KeyIsNext(rows, i);
    GroupInPlace(before, after, flushed, rows, keys[..i], key);
    StaysNonEmpty(if k in before then before[k] else [], after[k], RowsOf(rows, key));
    if Chronological(flushed + rows) {
      GroupInHourOrder(before, after, flushed, rows, i);
    }
  }

  lemma StartOfFlush(ledger: Ledger, flushed: seq<SnapshotRow>, rows: seq<SnapshotRow>)
    requires Accounted(ledger, flushed, [], [])
    ensures Accounted(ledger, flushed, [], rows)
  {
    assert flushed + [] == flushed;
    if Chronological(flushed + rows) {
      assert forall i :: 0 <= i < |flushed| ==> (flushed + rows)[i] == flushed[i];
    }
  }

  /** The sum of the groups' sizes. */
  function TotalSize(rows: seq<SnapshotRow>, keys: seq<GroupKey>): nat {
    if keys == [] then 0
    else TotalSize(rows, keys[..|keys| - 1]) + |RowsOf(rows, keys[|keys| - 1])|
  }

  lemma OneMoreSize(rows: seq<SnapshotRow>, keys: seq<GroupKey>, i: nat)
    requires i < |keys|
    ensures TotalSize(rows, keys[..i + 1]) == TotalSize(rows, keys[..i]) + |RowsOf(rows, keys[i])|
  {
    assert keys[..i + 1][..i] == keys[..i];
  }

  lemma {:induction false} OneMoreRow(rows: seq<SnapshotRow>, keys: seq<GroupKey>)
    requires rows != [] && forall i, j :: 0 <= i < j < |keys| ==> keys[i] != keys[j]
    ensures TotalSize(rows, keys)
         == TotalSize(rows[..|rows| - 1], keys) + if KeyOf(rows[|rows| - 1]) in keys then 1 else 0
  {
    if keys != [] {
      OneMoreRow(rows, keys[..|keys| - 1]);
      assert keys == keys[..|keys| - 1] + [keys[|keys| - 1]];
    }
  }

  /** Grouping neither loses nor repeats a row. */
  lemma {:induction false} GroupsCoverRows(rows: seq<SnapshotRow>)
    ensures TotalSize(rows, KeysOf(rows)) == |rows|
  {
    if rows != [] {
      var init := rows[..|rows| - 1];
      var key := KeyOf(rows[|rows| - 1]);
      GroupsCoverRows(init);
      KeysOfAre(init);
      KeysOfAre(rows);
      OneMoreRow(rows, KeysOf(rows));
      if key !in KeysOf(init) {
        assert KeysOf(rows)[..|KeysOf(init)|] == KeysOf(init);
      }
    }
  }

  lemma AllInPlace(ledger: Ledger, flushed: seq<SnapshotRow>, rows: seq<SnapshotRow>)
    requires InPlace(ledger, flushed, KeysOf(rows), rows)
    ensures InPlace(ledger, flushed + rows, [], [])
  {
    forall p ensures Written(ledger, p) == RowsOf(flushed + rows, p) {
      OnlyItsKeys(rows, p);
      RowsOfConcat(flushed, rows, p);
    }
  }

  /** Once all its groups are written, the batch is accounted for like everything flushed before. */
  lemma FlushAccounted(ledger: Ledger, flushed: seq<SnapshotRow>, rows: seq<SnapshotRow>)
    requires Accounted(ledger, flushed, KeysOf(rows), rows)
    ensures Accounted(ledger, flushed + rows, [], [])
  {
    AllInPlace(ledger, flushed, rows);
    assert flushed + rows + [] == flushed + rows;
  }

  function PathKey(p: Path): GroupKey {
    GroupKey(p.exchange, p.symbol, p.hour)
  }

  function ReadKey(files: Files, key: GroupKey): seq<SnapshotRow> {
    ReadPartition(files, key.exchange, key.symbol, key.hour)
  }

  function PartitionOf(files: Files, key: GroupKey): Files {
    Partition(files, key.exchange, key.symbol, key.hour)
  }

  /** The rows in the files of these partitions, added up. */
  ghost function PartitionSizes(files: Files, keys: seq<GroupKey>): nat {
    if keys == [] then 0
    else PartitionSizes(files, keys[..|keys| - 1]) + RowCount(PartitionOf(files, keys[|keys| - 1]))
  }

  ghost predicate SomeShort(files: Files, rows: seq<SnapshotRow>, keys: seq<GroupKey>) {
    exists key :: key in keys && RowCount(PartitionOf(files, key)) < |RowsOf(rows, key)|
  }

  lemma OneMoreShort(files: Files, rows: seq<SnapshotRow>, keys: seq<GroupKey>)
    requires keys != []
    ensures var n := |keys| - 1;
      SomeShort(files, rows, keys) <==>
      SomeShort(files, rows, keys[..n]) || RowCount(PartitionOf(files, keys[n])) < |RowsOf(rows, keys[n])|
  {
    assert keys == keys[..|keys| - 1] + [keys[|keys| - 1]];
  }

  /** If no partition holds too much, all together hold enough exactly when none holds too little. */
  lemma {:induction false} SizesCompare(files: Files, rows: seq<SnapshotRow>, keys: seq<GroupKey>)
    requires forall key :: RowCount(PartitionOf(files, key)) <= |RowsOf(rows, key)|
    ensures PartitionSizes(files, keys) <= TotalSize(rows, keys)
    ensures PartitionSizes(files, keys) < TotalSize(rows, keys) <==> SomeShort(files, rows, keys)
  {
    if keys != [] {
      var n := |keys| - 1;
      SizesCompare(files, rows, keys[..n]);
      OneMoreShort(files, rows, keys);
    }
  }

  lemma {:induction false} FinalisedAreFinal(exchange: string, symbol: string, openings: seq<Opening>, p: Path)
    ensures p in Finalised(map[], exchange, symbol, openings) ==>
      exists i :: 0 <= i < |openings| && p == FinalPath(exchange, symbol, openings[i])
  {
    if openings != [] {
      var n := |openings| - 1;
      FinalisedAreFinal(exchange, symbol, openings[..n], p);
      assert forall i :: 0 <= i < n ==> openings[..n][i] == openings[i];
    }
  }

  /** Every file lies in one of the partitions. */
  predicate Covered(files: Files, keys: seq<GroupKey>) {
    forall p :: p in files ==> !p.tmp && PathKey(p) in keys
  }

  predicate Distinct(keys: seq<GroupKey>) {
    forall i, j :: 0 <= i < j < |keys| ==> keys[i] != keys[j]
  }

  lemma LastIsApart(keys: seq<GroupKey>, key: GroupKey)
    requires keys != [] && Distinct(keys)
    ensures Distinct(keys[..|keys| - 1])
    ensures key in keys <==> key in keys[..|keys| - 1] || key == keys[|keys| - 1]
    ensures key in keys[..|keys| - 1] ==> key != keys[|keys| - 1]
  {
    assert keys == keys[..|keys| - 1] + [keys[|keys| - 1]];
  }

  lemma CoveredWithout(files: Files, keys: seq<GroupKey>, rest: Files)
    requires keys != [] && Covered(files, keys) && Distinct(keys)
    requires var key := keys[|keys| - 1]; rest == files - PartitionFiles(files, key.exchange, key.symbol, key.hour)
    ensures Covered(rest, keys[..|keys| - 1])
  {
    forall p | p in rest ensures !p.tmp && PathKey(p) in keys[..|keys| - 1] {
      LastIsApart(keys, PathKey(p));
    }
  }

  lemma OtherPartitionKept(files: Files, rest: Files, taken: GroupKey, key: GroupKey)
    requires key != taken
    requires rest == files - PartitionFiles(files, taken.exchange, taken.symbol, taken.hour)
    ensures PartitionOf(rest, key) == PartitionOf(files, key)
  {
  }

  lemma {:induction false} SizesWithout(files: Files, keys: seq<GroupKey>, rest: Files, taken: GroupKey)
    requires taken !in keys
    requires rest == files - PartitionFiles(files, taken.exchange, taken.symbol, taken.hour)
    ensures PartitionSizes(rest, keys) == PartitionSizes(files, keys)
  {
    if keys != [] {
      SizesWithout(files, keys[..|keys| - 1], rest, taken);
      OtherPartitionKept(files, rest, taken, keys[|keys| - 1]);
    }
  }

  /** Counting the rows file by file is counting them partition by partition. */
  lemma {:induction false} CountByPartition(files: Files, keys: seq<GroupKey>)
    requires Covered(files, keys) && Distinct(keys)
    ensures RowCount(files) == PartitionSizes(files, keys)
    decreases |keys|
  {
    if keys == [] {
      assert files == map[];
    } else {
      var key := keys[|keys| - 1];
      var paths := PartitionFiles(files, key.exchange, key.symbol, key.hour);
      RowCountSplit(files, paths);
      CoveredWithout(files, keys, files - paths);
      LastIsApart(keys, key);
      SizesWithout(files, keys[..|keys| - 1], files - paths, key);
      CountByPartition(files - paths, keys[..|keys| - 1]);
    }
  }

  class ParquetSink {
    const fs: FileSystem
    const queue: BoundedRowQueue
    const clock: Clock
    const batchSize: int
    const flushInterval: real
    const checkpointInterval: real
    var writers: map<(string, string), RotatingWriter>
    var buffer: seq<SnapshotRow>
    var lastFlush: real
    var rowsWritten: nat
    var batchesFlushed: nat
    /** Every row ever flushed, in order, and the size of the largest batch. */
    ghost var flushed: seq<SnapshotRow>
    ghost var ledger: Ledger
    ghost var repr: set<RotatingWriter>
    ghost var largestBatch: nat

    ghost predicate WritersValid()
      reads this`writers, this`repr, fs, clock, repr
    {
      && (forall k {:trigger writers[k]} :: k in writers ==> writers[k] in repr)
      && (forall k {:trigger WriterValid(k, writers[k])} :: k in writers ==> WriterValid(k, writers[k]))
      && (forall k: (string, string) {:trigger Own(fs.files, k.0, k.1)} ::
            k !in writers ==> Own(fs.files, k.0, k.1) == map[])
    }

    ghost predicate WriterValid(k: (string, string), writer: RotatingWriter)
      reads fs, clock, writer
    {
      && writer.fs == fs && writer.exchange == k.0 && writer.symbol == k.1
      && writer.checkpointInterval == checkpointInterval && writer.base == map[]
      && writer.Valid() && (writer.tmpPath.Some? ==> writer.openedAt <= clock.now)
    }

    /** The ledger mirrors the writers. */
    ghost predicate Mirrors()
      reads this`writers, this`repr, this`ledger, repr
    {
      writers.Keys == ledger.Keys && forall k {:trigger writers[k]} :: k in writers ==>
        writers[k] in repr && writers[k].openings == ledger[k]
    }

    ghost predicate WritersSound()
      reads this`writers, this`repr, this`ledger, fs, clock, repr
    {
      WritersValid() && Mirrors()
    }

    /** Every row flushed has been written to the partition of its own exchange, symbol and hour, in
        arrival order, and nothing else has. */
    ghost predicate Stored()
      reads this`writers, this`repr, this`ledger, this`flushed, this`rowsWritten, fs, clock, repr
    {
      WritersSound() && Accounted(ledger, flushed, [], []) && rowsWritten == |flushed|
    }

    /** And what was taken off the queue is flushed or buffered. */
    ghost predicate Valid()
      reads this`writers, this`repr, this`ledger, this`flushed, this`rowsWritten, this`buffer, fs, clock, queue, repr
    {
      Stored() && queue.Valid() && flushed + buffer == queue.Consumed()
    }

    constructor (fs: FileSystem, queue: BoundedRowQueue, clock: Clock, batchSize: int, flushInterval: real,
                 checkpointInterval: real)
      requires fs.files == map[] && queue.Valid() && queue.takenAt == []
      ensures Valid() && this.fs == fs && this.queue == queue && this.clock == clock
      ensures this.batchSize == batchSize && this.flushInterval == flushInterval
      ensures this.checkpointInterval == checkpointInterval && rowsWritten == batchesFlushed == 0
      ensures buffer == flushed == [] && writers == map[] && lastFlush == clock.now && largestBatch == 0
    {
      this.fs, this.queue, this.clock := fs, queue, clock;
      this.batchSize, this.flushInterval, this.checkpointInterval := batchSize, flushInterval, checkpointInterval;
      writers, buffer, lastFlush, rowsWritten, batchesFlushed := map[], [], clock.now, 0, 0;
      flushed, ledger, repr, largestBatch := [], map[], {}, 0;
      new;
      assert flushed + buffer == queue.Consumed();
    }

    /** The writer of an instrument, created on first use. */
    method WriterFor(k: (string, string)) returns (writer: RotatingWriter)
      requires WritersSound()
      modifies this`writers, this`repr, this`ledger
      ensures WritersSound() && k in writers && writers[k] == writer
      ensures if k in old(writers) then writers == old(writers) && repr == old(repr) && ledger == old(ledger)
              else fresh(writer) && repr == old(repr) + {writer} && ledger == old(ledger)[k := []]
    {
      if k in writers {
        return writers[k];
      }
      writer := new RotatingWriter(fs, k.0, k.1, checkpointInterval);
      writers := writers[k := writer];
      repr := repr + {writer};
      ledger := ledger[k := []];
    }

    /** Writing through one writer leaves every other instrument alone. */
    method WriteThrough(k: (string, string), group: seq<SnapshotRow>)
      requires WritersValid() && k in writers && group != [] && OfOneKey(group, GroupKey(k.0, k.1, HourOf(group[0])))
      modifies fs, clock, writers[k]
      ensures WritersValid()
      ensures forall k' {:trigger writers[k']} ::
                k' in writers && k' != k ==> writers[k'].openings == old(writers[k'].openings)
      ensures Extended(old(writers[k].openings), writers[k].openings, group) && old(clock.now) <= clock.now
    {
      AllDifferent(k);
      WriteOwn(writers[k], k, group);
      forall k' | k' in writers && k' != k ensures WriterValid(k', writers[k']) {
        assert old(WriterValid(k', writers[k']));
        assert Own(fs.files, k'.0, k'.1) == Own(old(fs.files), k'.0, k'.1);
        assert unchanged(writers[k']);
      }
      forall k': (string, string) | k' !in writers ensures Own(fs.files, k'.0, k'.1) == map[] {
        assert Own(old(fs.files), k'.0, k'.1) == map[];
      }
    }

    /** The ledger kept up with it. */
    method WriteLedgered(k: (string, string), group: seq<SnapshotRow>)
      requires WritersSound() && k in writers && group != [] && OfOneKey(group, GroupKey(k.0, k.1, HourOf(group[0])))
      modifies this`ledger, fs, clock, writers[k]
      ensures WritersSound() && old(clock.now) <= clock.now
      ensures k in ledger && ledger == old(ledger)[k := ledger[k]] && Extended(old(ledger)[k], ledger[k], group)
    {
      WriteThrough(k, group);
      ledger := ledger[k := writers[k].openings];
    }

    lemma AllDifferent(k: (string, string))
      requires WritersValid() && k in writers
      ensures forall k' {:trigger writers[k']} :: k' in writers && k' != k ==> writers[k'] != writers[k]
    {
      assert WriterValid(k, writers[k]);
      forall k' | k' in writers && k' != k ensures writers[k'] != writers[k] {
        assert WriterValid(k', writers[k']);
      }
    }

    method WriteOwn(writer: RotatingWriter, ghost k: (string, string), group: seq<SnapshotRow>)
      requires WriterValid(k, writer) && group != [] && OfOneKey(group, GroupKey(k.0, k.1, HourOf(group[0])))
      modifies fs, clock, writer
      ensures WriterValid(k, writer) && old(clock.now) <= clock.now
      ensures Extended(old(writer.openings), writer.openings, group)
      ensures forall k': (string, string) {:trigger Own(fs.files, k'.0, k'.1)} :: k' != k ==>
        Own(fs.files, k'.0, k'.1) == Own(old(fs.files), k'.0, k'.1)
    {
      var now := clock.Read();
      writer.WriteBatch(group, now);
    }

    /** One group of a flush: its writer, which may be new, takes the rows. */
    method WriteGroup(key: GroupKey, group: seq<SnapshotRow>)
      requires WritersSound() && group != [] && OfOneKey(group, key)
      modifies this`writers, this`ledger, this`repr, fs, clock, repr
      ensures WritersSound() && fresh(repr - old(repr)) && old(clock.now) <= clock.now
      ensures GroupTaken(old(ledger), ledger, key, group)
    {
      var k := (key.exchange, key.symbol);
      ghost var before := ledger;
      var writer := WriterFor(k);
      ghost var ready := ledger;
      WriteLedgered(k, group);
      TakenBy(before, ready, ledger, key, group);
    }

    method FlushGroup(key: GroupKey, group: seq<SnapshotRow>, ghost i: nat, ghost rows: seq<SnapshotRow>)
      requires WritersSound()
      requires i < |KeysOf(rows)| && key == KeysOf(rows)[i] && group == RowsOf(rows, key)
      requires Accounted(ledger, flushed, KeysOf(rows)[..i], rows)
      modifies this`writers, this`ledger, this`repr, this`rowsWritten, fs, clock, repr
      ensures WritersSound() && fresh(repr - old(repr)) && old(clock.now) <= clock.now
      ensures Accounted(ledger, flushed, KeysOf(rows)[..i + 1], rows)
      ensures rowsWritten == old(rowsWritten) + |group|
    {
      ghost var before := ledger;
      GroupIsUniform(rows, i);
      WriteGroup(key, group);
      GroupAccounted(before, ledger, flushed, rows, i);
      rowsWritten := rowsWritten + |group|;
    }

    method FlushGroups(keys: seq<GroupKey>, groups: map<GroupKey, seq<SnapshotRow>>, ghost rows: seq<SnapshotRow>)
      requires WritersSound() && Accounted(ledger, flushed, [], rows) && Grouped(rows, keys, groups)
      modifies this`writers, this`ledger, this`repr, this`rowsWritten, fs, clock, repr
      ensures WritersSound() && fresh(repr - old(repr)) && old(clock.now) <= clock.now
      ensures Accounted(ledger, flushed, keys, rows)
      ensures rowsWritten == old(rowsWritten) + TotalSize(rows, keys)
    {
      for i := 0 to |keys|
        invariant WritersSound() && fresh(repr - old(repr)) && old(clock.now) <= clock.now
        invariant Accounted(ledger, flushed, keys[..i], rows)
        invariant rowsWritten == old(rowsWritten) + TotalSize(rows, keys[..i])
      {
        OneMoreSize(rows, keys, i);
        GroupOf(rows, keys, groups, i);
        FlushGroup(keys[i], groups[keys[i]], i, rows);
      }
      assert keys[..|keys|] == keys;
    }

    /** The whole batch reaches its partitions. */
    method FlushBatch(rows: seq<SnapshotRow>)
      requires WritersSound() && Accounted(ledger, flushed, [], [])
      modifies this`writers, this`ledger, this`repr, this`rowsWritten, fs, clock, repr
      ensures WritersSound() && fresh(repr - old(repr)) && old(clock.now) <= clock.now
      ensures Accounted(ledger, flushed + rows, [], []) && rowsWritten == old(rowsWritten) + |rows|
    {
      StartOfFlush(ledger, flushed, rows);
      var keys, groups := GroupRows(rows);
      FlushGroups(keys, groups, rows);
      FlushAccounted(ledger, flushed, rows);
      GroupsCoverRows(rows);
    }

    /** _flush: the whole batch is stored and counted. */
    method Flush(rows: seq<SnapshotRow>)
      requires Stored()
      modifies this`writers, this`ledger, this`repr, this`flushed, this`rowsWritten, this`batchesFlushed,
               this`largestBatch, fs, clock, repr
      ensures Stored() && fresh(repr - old(repr)) && old(clock.now) <= clock.now
      ensures flushed == old(flushed) + rows && batchesFlushed == old(batchesFlushed) + 1
      ensures largestBatch == if old(largestBatch) < |rows| then |rows| else old(largestBatch)
    {
      FlushBatch(rows);
      flushed := flushed + rows;
      batchesFlushed := batchesFlushed + 1;
      if largestBatch < |rows| {
        largestBatch := |rows|;
      }
    }

    method FlushBuffer()
      requires Valid()
      modifies this, fs, clock, repr
      ensures Valid() && buffer == [] && flushed == old(flushed) + old(buffer)
      ensures batchesFlushed == old(batchesFlushed) + 1
      ensures lastFlush == old(lastFlush) && old(clock.now) <= clock.now && fresh(repr - old(repr))
      ensures largestBatch == if old(largestBatch) < |old(buffer)| then |old(buffer)| else old(largestBatch)
    {
      Flush(buffer);
      buffer := [];
      assert flushed + buffer == old(flushed + buffer);
    }

    method ReadClock() returns (t: real)
      requires Valid()
      modifies clock
      ensures Valid() && t == clock.now && old(clock.now) <= clock.now
    {
      t := clock.Read();
      forall k | k in writers ensures WriterValid(k, writers[k]) {
        assert old(WriterValid(k, writers[k]));
      }
    }

    /** wait_for(queue.get(), timeout): it must not be given a timeout that is not positive, with which
        it would never let get() run. While it waits, other tasks put rows; a row that is already
        there is taken. */
    method AwaitRow(timeout: real) returns (row: Option<SnapshotRow>)
      requires queue.Valid() && timeout > 0.0
      modifies queue
      ensures queue.Valid()
      ensures queue.Consumed() == old(queue.Consumed()) + match row case None => [] case Some(r) => [r]
      ensures old(queue.items) != [] ==> row.Some?
      ensures |queue.takenAt| == |old(queue.takenAt)| + (if row.Some? then 1 else 0)
      ensures |queue.items| + |queue.takenAt| >= |old(queue.items)| + |old(queue.takenAt)|
    {
      var waiting := queue.items != [];
      var arrivals: seq<SnapshotRow> := *;
      for i := 0 to |arrivals|
        invariant queue.Valid() && queue.Consumed() == old(queue.Consumed())
        invariant |queue.items| >= |old(queue.items)| && queue.takenAt == old(queue.takenAt)
        modifies queue
      {
        var evicted := queue.Put(arrivals[i]);
      }
      var ready: bool := *;
      if queue.items != [] && (waiting || ready) {
        var r := queue.Get();
        return Some(r);
      }
      return None;
    }

    ghost predicate BatchesBounded()
      reads this
    {
      largestBatch <= (if batchSize < 1 then 1 else batchSize) && (buffer == [] || |buffer| < batchSize)
    }

    /** How many rows were taken off the queue so far. */
    ghost function Taken(): nat
      reads queue
    {
      |queue.takenAt|
    }

    /** One turn of the consume loop. It always waits with a positive timeout, takes a row if one is
        waiting, keeps every batch within batch_size, and ends with an empty buffer or with a last
        flush less than one interval old. */
    method ConsumeOnce()
      requires Valid() && BatchesBounded() && flushInterval > 0.0 && lastFlush <= clock.now
      modifies this, fs, clock, queue, repr
      ensures Valid() && BatchesBounded() && lastFlush <= clock.now && fresh(repr - old(repr))
      ensures buffer == [] || clock.now - lastFlush < flushInterval
      ensures old(flushed) <= flushed && old(queue.Consumed()) <= queue.Consumed()
      ensures old(Taken()) <= Taken() <= old(Taken()) + 1 && (old(queue.items) != [] ==> Taken() == old(Taken()) + 1)
      ensures |queue.items| + Taken() >= |old(queue.items)| + old(Taken())
    {
      var remaining: real;
      ghost var start, at: real;
      remaining, start := FlushIfDue();
      TakeRow(remaining);
      at := FlushIfFull();
    }

    /** What is left of the flush interval, after a flush if nothing is. */
    method FlushIfDue() returns (remaining: real, ghost start: real)
      requires Valid() && BatchesBounded() && flushInterval > 0.0 && lastFlush <= clock.now
      modifies this, fs, clock, repr
      ensures Valid() && BatchesBounded() && lastFlush <= clock.now && fresh(repr - old(repr))
      ensures 0.0 < remaining <= flushInterval && remaining <= flushInterval - (clock.now - lastFlush)
      ensures old(flushed) <= flushed && old(clock.now) <= start <= clock.now
      ensures if start - old(lastFlush) < flushInterval then
                && buffer == old(buffer) && flushed == old(flushed) && lastFlush == old(lastFlush)
                && batchesFlushed == old(batchesFlushed) && remaining == flushInterval - (start - old(lastFlush))
              else
                && buffer == [] && flushed == old(flushed) + old(buffer) && start <= lastFlush
                && batchesFlushed == old(batchesFlushed) + (if old(buffer) == [] then 0 else 1)
                && remaining == flushInterval
    {
      var now := ReadClock();
      start := now;
      remaining := flushInterval - (now - lastFlush);
      if remaining <= 0.0 {
        FlushStale();
        remaining := flushInterval;
      }
    }

    method FlushedAt(now: real)
      requires Valid()
      modifies this`lastFlush
      ensures Valid() && lastFlush == now
    {
      lastFlush := now;
    }

    /** The interval is over: flush what there is, and start the next one now. */
    method FlushStale()
      requires Valid()
      modifies this, fs, clock, repr
      ensures Valid() && buffer == [] && lastFlush == clock.now && fresh(repr - old(repr))
      ensures flushed == old(flushed) + old(buffer) && old(clock.now) <= clock.now
      ensures batchesFlushed == old(batchesFlushed) + if old(buffer) == [] then 0 else 1
      ensures largestBatch == if old(largestBatch) < |old(buffer)| then |old(buffer)| else old(largestBatch)
    {
      if buffer != [] {
        FlushBuffer();
      }
      var now := ReadClock();
      FlushedAt(now);
    }

    method TakeRow(remaining: real)
      requires Valid() && BatchesBounded() && remaining > 0.0 && lastFlush <= clock.now
      modifies this`buffer, queue
      ensures Valid() && lastFlush <= clock.now && old(queue.Consumed()) <= queue.Consumed()
      ensures |buffer| == |old(buffer)| + (Taken() - old(Taken()))
      ensures old(Taken()) <= Taken() <= old(Taken()) + 1 && (old(queue.items) != [] ==> Taken() == old(Taken()) + 1)
      ensures |queue.items| + Taken() >= |old(queue.items)| + old(Taken())
    {
      var row := AwaitRow(remaining);
      if row.Some? {
        KeepRow(row.value);
      }
    }

    method KeepRow(row: SnapshotRow)
      requires Stored() && queue.Valid() && flushed + buffer + [row] == queue.Consumed()
      modifies this`buffer
      ensures Valid() && buffer == old(buffer) + [row]
    {
      assert flushed + (buffer + [row]) == flushed + buffer + [row];
      buffer := buffer + [row];
    }

    method FlushIfFull() returns (ghost at: real)
      requires Valid() && |buffer| <= (if batchSize < 1 then 1 else batchSize) && lastFlush <= clock.now
      requires largestBatch <= (if batchSize < 1 then 1 else batchSize)
      modifies this, fs, clock, repr
      ensures Valid() && BatchesBounded() && lastFlush <= clock.now && fresh(repr - old(repr))
      ensures buffer == [] || clock.now - lastFlush < flushInterval
      ensures old(flushed) <= flushed && old(clock.now) <= at <= clock.now
      ensures if |old(buffer)| >= batchSize || (old(buffer) != [] && at - old(lastFlush) >= flushInterval) then
                && buffer == [] && flushed == old(flushed) + old(buffer) && lastFlush == at
                && batchesFlushed == old(batchesFlushed) + 1
              else
                && buffer == old(buffer) && flushed == old(flushed) && lastFlush == old(lastFlush)
                && batchesFlushed == old(batchesFlushed)
    {
      var now := ReadClock();
      at := now;
      if |buffer| >= batchSize || (buffer != [] && now - lastFlush >= flushInterval) {
        FlushAt(now);
      }
    }

    method FlushAt(now: real)
      requires Valid() && now <= clock.now
      modifies this, fs, clock, repr
      ensures Valid() && buffer == [] && lastFlush == now <= clock.now && fresh(repr - old(repr))
      ensures flushed == old(flushed) + old(buffer) && old(clock.now) <= clock.now
      ensures batchesFlushed == old(batchesFlushed) + 1
      ensures largestBatch == if old(largestBatch) < |old(buffer)| then |old(buffer)| else old(largestBatch)
    {
      FlushBuffer();
      FlushedAt(now);
    }

    /** Any number of turns: a turn takes a row whenever one waits, so n turns take n rows or all that
        were waiting at first; each row taken is flushed, in order and in its partition, or still
        buffered; and no buffer goes stale. */
    method Consume(turns: nat)
      requires Valid() && BatchesBounded() && flushInterval > 0.0 && lastFlush <= clock.now
      modifies this, fs, clock, queue, repr
      ensures Valid() && BatchesBounded() && old(flushed) <= flushed && old(queue.Consumed()) <= queue.Consumed()
      ensures turns > 0 ==> buffer == [] || clock.now - lastFlush < flushInterval
      ensures (if turns < |old(queue.items)| then turns else |old(queue.items)|) <= Taken() - old(Taken()) <= turns
    {
      ghost var waiting, taken := |queue.items|, Taken();
      for i := 0 to turns
        invariant Valid() && BatchesBounded() && lastFlush <= clock.now && fresh(repr - old(repr))
        invariant old(flushed) <= flushed && old(queue.Consumed()) <= queue.Consumed()
        invariant i > 0 ==> buffer == [] || clock.now - lastFlush < flushInterval
        invariant |queue.items| + Taken() >= waiting + taken
        invariant taken + (if i < waiting then i else waiting) <= Taken() <= taken + i
      {
        ConsumeOnce();
      }
    }

    method CloseOne(k: (string, string))
      requires WritersSound() && k in writers
      modifies fs, writers[k]
      ensures WritersSound() && writers[k].tmpPath == None
      ensures forall k' {:trigger writers[k']} ::
                k' in writers && k' != k ==> writers[k'].tmpPath == old(writers[k'].tmpPath)
    {
      AllDifferent(k);
      assert WriterValid(k, writers[k]);
      writers[k].Close();
      forall k' | k' in writers && k' != k ensures WriterValid(k', writers[k']) {
        assert old(WriterValid(k', writers[k']));
        assert Own(fs.files, k'.0, k'.1) == Own(old(fs.files), k'.0, k'.1);
        assert unchanged(writers[k']);
      }
      forall k': (string, string) | k' !in writers ensures Own(fs.files, k'.0, k'.1) == map[] {
        assert Own(old(fs.files), k'.0, k'.1) == map[];
      }
    }

    ghost predicate AllClosed()
      reads this`writers, this`repr, repr
    {
      forall k {:trigger writers[k]} :: k in writers ==> writers[k] in repr && writers[k].tmpPath == None
    }

    /** The finally block of run(): what is buffered is flushed, and every file gets its final name. */
    method Finish()
      requires Valid()
      modifies this, fs, clock, repr
      ensures Valid() && AllClosed() && buffer == [] && flushed == old(flushed) + old(buffer)
      ensures batchesFlushed == old(batchesFlushed) + if old(buffer) == [] then 0 else 1
    {
      if buffer != [] {
        FlushBuffer();
      }
      CloseAll();
    }

    method CloseAll()
      requires WritersSound()
      modifies fs, repr
      ensures WritersSound() && AllClosed()
    {
      var rest := writers.Keys;
      while rest != {}
        invariant WritersSound() && rest <= writers.Keys
        invariant forall k {:trigger writers[k]} :: k in writers && k !in rest ==> writers[k].tmpPath == None
        decreases rest
      {
        var k := Pick(rest);
        CloseOne(k);
        rest := rest - {k};
      }
    }

    /** What a finished sink leaves behind, when every instrument's rows arrived in the order of their
        hours: each partition, read back from its directory part after part, is exactly the rows
        flushed for it, in arrival order. */
    lemma DiskHoldsEveryRow(key: GroupKey)
      requires Valid() && AllClosed() && Chronological(flushed)
      ensures ReadKey(fs.files, key) == RowsOf(flushed, key)
      ensures Gapless(fs.files, key.exchange, key.symbol, key.hour)
    {
      var k := (key.exchange, key.symbol);
      assert flushed + [] == flushed;
      assert Written(ledger, key) == RowsOf(flushed, key);
      PartitionOfOwn(fs.files, Own(fs.files, k.0, k.1), k.0, k.1, key.hour);
      if k in writers {
        assert WriterValid(k, writers[k]);
        AscendingNeverReturns(writers[k].openings, key.hour);
        HourOnDisk(map[], k.0, k.1, writers[k].openings, key.hour);
      } else {
        assert PartitionFiles(map[], k.0, k.1, key.hour) == {};
      }
    }

    /** At any time, every row on disk is in the partition of its own instrument and of the hour of its
        wall-clock timestamp. */
    lemma DiskRowsPlaced()
      requires Valid()
      ensures forall p, row :: p in fs.files && row in fs.files[p] ==>
                && row.exchange == p.exchange && row.symbol == p.symbol
                && p.hour * 3_600_000_000_000 <= row.tsWallNs < (p.hour + 1) * 3_600_000_000_000
    {
      forall p, row | p in fs.files && row in fs.files[p]
        ensures row.exchange == p.exchange && row.symbol == p.symbol && HourOf(row) == p.hour
      {
        var k := (p.exchange, p.symbol);
        var own := Own(fs.files, k.0, k.1);
        assert p in own && own[p] == fs.files[p];
        assert k in writers && WriterValid(k, writers[k]);
        WriterPlacesRows(writers[k]);
      }
    }

    /** There is no other file: no .tmp is left, and every file lies in a partition with rows. */
    lemma EveryFileIsAccountedFor(p: Path)
      requires Valid() && AllClosed() && p in fs.files
      ensures !p.tmp && PathKey(p) in KeysOf(flushed)
    {
      var k := (p.exchange, p.symbol);
      assert p in Own(fs.files, k.0, k.1);
      assert k in writers && WriterValid(k, writers[k]);
      var openings := writers[k].openings;
      FinalisedAreFinal(k.0, k.1, openings, p);
      var i :| 0 <= i < |openings| && p == FinalPath(k.0, k.1, openings[i]);
      HourRowsAre(openings, p.hour);
      assert openings[i].rows[0] in HourRows(openings, p.hour);
      assert Written(ledger, PathKey(p)) == RowsOf(flushed, PathKey(p));
      KeysOfAre(flushed);
    }

    /** Each partition on disk holds at most the rows flushed for it, and fewer exactly when its
        writer left the hour and came back. */
    lemma PartitionShortIff(key: GroupKey)
      requires Valid() && AllClosed()
      ensures var k := (key.exchange, key.symbol);
        var kept := RowCount(PartitionOf(fs.files, key));
        && kept <= |RowsOf(flushed, key)|
        && (kept < |RowsOf(flushed, key)| <==> k in writers && ComesBack(writers[k].openings, key.hour))
    {
      var k := (key.exchange, key.symbol);
      var own := Own(fs.files, k.0, k.1);
      assert PartitionOf(fs.files, key) == PartitionOf(own, key);
      assert Written(ledger, key) == RowsOf(flushed, key);
      assert PartitionFiles(map[], k.0, k.1, key.hour) == {} && PartitionOf(map[], key) == map[];
      if k in writers {
        assert WriterValid(k, writers[k]);
        RowsLostIffHourComesBack(map[], k.0, k.1, writers[k].openings, key.hour);
      }
    }

    ghost predicate NoHourComesBack()
      requires forall k {:trigger writers[k]} :: k in writers ==> writers[k] in repr
      reads this`writers, this`repr, repr
    {
      forall k, hour :: k in writers ==> !ComesBack(writers[k].openings, hour)
    }

    lemma ReturnedHourHasRows(k: (string, string), hour: int)
      requires Valid() && k in writers && ComesBack(writers[k].openings, hour)
      ensures GroupKey(k.0, k.1, hour) in KeysOf(flushed)
    {
      var openings := writers[k].openings;
      assert WriterValid(k, writers[k]);
      var i :| 0 <= i < |openings| && openings[i].hour == hour;
      HourRowsAre(openings, hour);
      assert openings[i].rows[0] in HourRows(openings, hour);
      assert Written(ledger, GroupKey(k.0, k.1, hour)) == RowsOf(flushed, GroupKey(k.0, k.1, hour));
      KeysOfAre(flushed);
    }

    /** Exactly when rows_written is the number of rows in all the files on disk: when no writer came
        back to an hour it had left. Otherwise the files hold fewer rows. */
    lemma RowsWrittenAreOnDiskIff()
      requires Valid() && AllClosed()
      ensures RowCount(fs.files) <= rowsWritten
      ensures RowCount(fs.files) == rowsWritten <==> NoHourComesBack()
    {
      var keys := KeysOf(flushed);
      KeysOfAre(flushed);
      forall p | p in fs.files ensures !p.tmp && PathKey(p) in keys {
        EveryFileIsAccountedFor(p);
      }
      CountByPartition(fs.files, keys);
      GroupsCoverRows(flushed);
      forall key ensures RowCount(PartitionOf(fs.files, key)) <= |RowsOf(flushed, key)| {
        PartitionShortIff(key);
      }
      SizesCompare(fs.files, flushed, keys);
      ShortIffHourComesBack();
    }

    lemma ShortIffHourComesBack()
      requires Valid() && AllClosed()
      ensures SomeShort(fs.files, flushed, KeysOf(flushed)) <==> !NoHourComesBack()
    {
      if k, hour :| k in writers && ComesBack(writers[k].openings, hour) {
        ReturnedHourHasRows(k, hour);
        PartitionShortIff(GroupKey(k.0, k.1, hour));
      } else {
        forall key | key in KeysOf(flushed) ensures RowCount(PartitionOf(fs.files, key)) >= |RowsOf(flushed, key)| {
          PartitionShortIff(key);
        }
      }
    }

    /** In particular when every instrument's rows arrived in the order of their hours. */
    lemma RowsWrittenAreOnDisk()
      requires Valid() && AllClosed() && Chronological(flushed)
      ensures RowCount(fs.files) == rowsWritten
    {
      assert flushed + [] == flushed;
      forall k, hour | k in writers ensures !ComesBack(writers[k].openings, hour) {
        assert writers[k].openings == ledger[k];
        AscendingNeverReturns(writers[k].openings, hour);
      }
      RowsWrittenAreOnDiskIff();
    }
  }
}
