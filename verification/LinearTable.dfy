/** The device-mapper table that joins block devices end to end. A row of the "linear"
    target maps `length` sectors from `start` on to a device, beginning at `offset`. */
module LinearTable {
  import opened Arithmetic

  datatype Device = Device(name: string, sectors: nat)

  datatype Row = Row(start: nat, length: nat, device: string, offset: nat)

  /** The sectors of the first `n` devices together. */
  function SectorsOf(devices: seq<Device>, n: nat): nat
    requires n <= |devices|
  {
    if n == 0 then 0 else SectorsOf(devices, n - 1) + devices[n - 1].sectors
  }

  function Total(devices: seq<Device>): nat {
    SectorsOf(devices, |devices|)
  }

  function Table(devices: seq<Device>): seq<Row> {
    seq(|devices|, i requires 0 <= i < |devices| =>
      Row(SectorsOf(devices, i), devices[i].sectors, devices[i].name, 0))
  }

  method BuildTable(devices: seq<Device>) returns (rows: seq<Row>, blkSize: nat)
    ensures rows == Table(devices)
    ensures blkSize == Total(devices)
  {
    rows, blkSize := [], 0;
    for cnt := 0 to |devices|
      invariant rows == Table(devices)[..cnt]
      invariant blkSize == SectorsOf(devices, cnt)
    {
      var dev := devices[cnt];
      rows := rows + [Row(blkSize, dev.sectors, dev.name, 0)];
      blkSize := blkSize + dev.sectors;
    }
  }

  /** The row of a device, behind the row before it. */
  ghost predicate RowFollows(devices: seq<Device>, rows: seq<Row>, i: int)
    requires 0 <= i < |rows| == |devices|
  {
    && rows[i].start == (if i == 0 then 0 else rows[i - 1].start + rows[i - 1].length)
    && rows[i].length == devices[i].sectors
    && rows[i].device == devices[i].name
    && rows[i].offset == 0
  }

  /** The table is the one with a row per device, in order, from its first sector to its last,
      each row starting where the one before it ends; the total is where the last one ends. */
  lemma TableIsContiguous(devices: seq<Device>, rows: seq<Row>)
    ensures rows == Table(devices) <==>
            |rows| == |devices| && forall i | 0 <= i < |rows| :: RowFollows(devices, rows, i)
    ensures var n := |devices|;
            Total(devices) == if n == 0 then 0 else Table(devices)[n - 1].start + Table(devices)[n - 1].length
  {
    if |rows| == |devices| && forall i | 0 <= i < |rows| :: RowFollows(devices, rows, i) {
      forall i | 0 <= i < |rows|
        ensures rows[i] == Table(devices)[i]
      {
        StartsOfRows(devices, rows, i);
      }
    }
  }

  lemma {:induction false} StartsOfRows(devices: seq<Device>, rows: seq<Row>, i: nat)
    requires i < |rows| == |devices| && forall j | 0 <= j < |rows| :: RowFollows(devices, rows, j)
    ensures rows[i] == Table(devices)[i]
  {
    if i > 0 {
      StartsOfRows(devices, rows, i - 1);
    }
    assert RowFollows(devices, rows, i);
  }

  // ----- what the table means -----

  predicate Covers(row: Row, sector: nat) {
    row.start <= sector < row.start + row.length
  }

  /** Where the mapper sends a sector: the first row that covers it decides. */
  function Resolve(rows: seq<Row>, sector: nat): Option<(string, nat)> {
    if rows == [] then None
    else if Covers(rows[0], sector) then
      Some((rows[0].device, rows[0].offset + (sector - rows[0].start)))
    else Resolve(rows[1..], sector)
  }

  /** The logical sector of a position on the i-th device. */
  function SectorOf(devices: seq<Device>, i: nat, offset: nat): nat
    requires i < |devices|
  {
    SectorsOf(devices, i) + offset
  }

  lemma {:induction false} SectorsGrow(devices: seq<Device>, m: nat, n: nat)
    requires m <= n <= |devices|
    ensures SectorsOf(devices, m) <= SectorsOf(devices, n)
    decreases n - m
  {
    if m < n {
      SectorsGrow(devices, m + 1, n);
    }
  }

  /** Rows do not overlap: two rows that cover the same sector are the same row. */
  lemma RowsAreDisjoint(devices: seq<Device>, i: nat, j: nat, sector: nat)
    requires i < |devices| && j < |devices|
    requires Covers(Table(devices)[i], sector) && Covers(Table(devices)[j], sector)
    ensures i == j
  {
    if i < j {
      SectorsGrow(devices, i + 1, j);
    } else if j < i {
      SectorsGrow(devices, j + 1, i);
    }
  }

  /** The rows cover every sector below the total: finds the device of a sector. */
  lemma {:induction false} RowOfSector(devices: seq<Device>, n: nat, sector: nat) returns (i: nat)
    requires n <= |devices| && sector < SectorsOf(devices, n)
    ensures i < n && Covers(Table(devices)[i], sector)
  {
    if sector < SectorsOf(devices, n - 1) {
      i := RowOfSector(devices, n - 1, sector);
    } else {
      i := n - 1;
    }
  }

  /** A covering row decides, wherever it stands in the table. */
  lemma {:induction false} ResolveByRow(devices: seq<Device>, from: nat, i: nat, sector: nat)
    requires from <= i < |devices| && Covers(Table(devices)[i], sector)
    ensures Resolve(Table(devices)[from..], sector) == Some((devices[i].name, sector - SectorsOf(devices, i)))
    decreases i - from
  {
    var rows := Table(devices)[from..];
    if from < i {
      if Covers(rows[0], sector) {
        RowsAreDisjoint(devices, from, i, sector);
      }
      assert rows[1..] == Table(devices)[from + 1..];
      ResolveByRow(devices, from + 1, i, sector);
    }
  }

  lemma {:induction false} ResolveNothing(rows: seq<Row>, sector: nat)
    requires forall i | 0 <= i < |rows| :: !Covers(rows[i], sector)
    ensures Resolve(rows, sector) == None
  {
    if rows != [] {
      ResolveNothing(rows[1..], sector);
    }
  }

  /** The sectors of the mapped device are exactly those below the total, and each is the
      sector of one position of one device: the one it resolves to. */
  lemma SectorsArePositions(devices: seq<Device>, sector: nat)
    ensures Resolve(Table(devices), sector).Some? <==> sector < Total(devices)
    ensures sector < Total(devices) ==>
              exists i, offset: nat | 0 <= i < |devices| && offset < devices[i].sectors ::
                && sector == SectorOf(devices, i, offset)
                && Resolve(Table(devices), sector) == Some((devices[i].name, offset))
  {
    var rows := Table(devices);
    assert rows[0..] == rows;
    if sector < Total(devices) {
      var i := RowOfSector(devices, |devices|, sector);
      ResolveByRow(devices, 0, i, sector);
      var offset := sector - SectorsOf(devices, i);
      assert sector == SectorOf(devices, i, offset);
    } else {
      forall i | 0 <= i < |rows|
        ensures !Covers(rows[i], sector)
      {
        SectorsGrow(devices, i + 1, |devices|);
      }
      ResolveNothing(rows, sector);
    }
  }

  /** Every position of every device has one sector, below the total, that resolves to it;
      different positions have different sectors. */
  lemma PositionsAreSectors(devices: seq<Device>, i: nat, a: nat, j: nat, b: nat)
    requires i < |devices| && a < devices[i].sectors
    requires j < |devices| && b < devices[j].sectors
    ensures SectorOf(devices, i, a) < Total(devices)
    ensures Resolve(Table(devices), SectorOf(devices, i, a)) == Some((devices[i].name, a))
    ensures SectorOf(devices, i, a) == SectorOf(devices, j, b) ==> i == j && a == b
  {
    assert Table(devices)[0..] == Table(devices);
    SectorsGrow(devices, i + 1, |devices|);
    ResolveByRow(devices, 0, i, SectorOf(devices, i, a));
    if SectorOf(devices, i, a) == SectorOf(devices, j, b) {
      RowsAreDisjoint(devices, i, j, SectorOf(devices, i, a));
    }
  }

  ghost predicate NamesDistinct(devices: seq<Device>) {
    forall i, j | 0 <= i < j < |devices| && devices[i].sectors > 0 && devices[j].sectors > 0 ::
      devices[i].name != devices[j].name
  }

  ghost predicate OneToOne(devices: seq<Device>) {
    forall s: nat, s': nat | s < s' < Total(devices) ::
      Resolve(Table(devices), s) != Resolve(Table(devices), s')
  }

  /** No two logical sectors share a place on a disk if and only if no two devices with
      sectors have the same name. */
  lemma OneToOneIff(devices: seq<Device>)
    ensures OneToOne(devices) <==> NamesDistinct(devices)
  {
    if NamesDistinct(devices) {
      forall s: nat, s': nat | s < s' < Total(devices)
        ensures Resolve(Table(devices), s) != Resolve(Table(devices), s')
      {
        var i := RowOfSector(devices, |devices|, s);
        var j := RowOfSector(devices, |devices|, s');
        PositionsAreSectors(devices, i, s - SectorsOf(devices, i), j, s' - SectorsOf(devices, j));
        PositionsAreSectors(devices, j, s' - SectorsOf(devices, j), i, s - SectorsOf(devices, i));
        if j < i {
          assert devices[j].name != devices[i].name;
        }
      }
    } else {
      var i, j :| 0 <= i < j < |devices| && devices[i].sectors > 0 && devices[j].sectors > 0
                  && devices[i].name == devices[j].name;
      PositionsAreSectors(devices, i, 0, j, 0);
      PositionsAreSectors(devices, j, 0, i, 0);
      SectorsGrow(devices, i, j);
      assert Resolve(Table(devices), SectorOf(devices, i, 0)) == Resolve(Table(devices), SectorOf(devices, j, 0));
    }
  }
}
