/** The four namespaces an xfs test run works on: two for data and two for the external
    logs, in one region or in two. */
module XfsDevices {
  import opened Arithmetic
  import opened Namespaces

  /** The largest size of a log device: 16 MiB below 2 GiB. */
  const MAX_LOG_SIZE := 2130706432

  /** The platform's size alignment; the hash MMU needs 16 MiB. */
  function SizeAlign(hash: bool): int {
    if hash then 16 * 1024 * 1024 else 2 * 1024 * 1024
  }

  function HalfSize(size: nat, align: int): int
    requires align > 0
  {
    AutoSize(size, 2, align)
  }

  datatype Sizes = Sizes(dev: int, log: int)

  /** One region holds everything: a tenth of it is for the logs. */
  function SharedSizes(regionSize: nat, align: int): Sizes
    requires align > 0
  {
    TenthOf(regionSize);
    var logPart := Truncate(regionSize as real * 0.10);
    Sizes(HalfSize(regionSize - logPart, align), Min(HalfSize(logPart, align), MAX_LOG_SIZE))
  }

  /** Data and logs have a region each. */
  function SeparateSizes(regionSize: nat, logRegionSize: nat, align: int): Sizes
    requires align > 0
  {
    Sizes(HalfSize(regionSize, align), Min(HalfSize(logRegionSize, align), MAX_LOG_SIZE))
  }

  function Pair(r: Region, size: int, mode: Mode): (p: seq<Namespace>)
    ensures |p| == 2 && forall ns | ns in p :: ns.size == size && ns.align == r.toolAlign && ns.mode == mode
  {
    Copies(Namespace(size, r.toolAlign, mode), 2)
  }

  /** Prepares the regions; with a single region `logRegion` is `region` itself. */
  method SetupNvdimm(region: Region, logRegion: Region, logFlag: bool, hash: bool) returns (ok: bool)
    modifies region, logRegion
    ensures logFlag && logRegion == region ==>
              var s := SharedSizes(region.size, SizeAlign(hash));
              Reached(region.namespaces, Pair(region, s.log, Sector) + Pair(region, s.dev, Fsdax), ok)
    ensures logFlag && logRegion != region ==>
              var s := SeparateSizes(region.size, logRegion.size, SizeAlign(hash));
              && Reached(logRegion.namespaces, Pair(logRegion, s.log, Sector), ok || region.namespaces != [])
              && Reached(region.namespaces, Pair(region, s.dev, Fsdax), ok)
    ensures !logFlag ==>
              Reached(region.namespaces, Pair(region, HalfSize(region.size, SizeAlign(hash)), Fsdax), ok)
    ensures !logFlag && logRegion != region ==> logRegion.namespaces == old(logRegion.namespaces)
    ensures !ok ==> exists k :: !region.accepts(k) || !logRegion.accepts(k)
  {
    var align := SizeAlign(hash);
    var devSize: int;
    if logFlag {
      var logdevSize: int;
      if logRegion == region {
        logdevSize := Truncate(region.size as real * 0.10);
        devSize := region.size - logdevSize;
        devSize := devSize / 2;
        devSize := devSize / align * align;
        logdevSize := logdevSize / 2;
        logdevSize := logdevSize / align * align;
      } else {
        devSize := HalfSize(region.size, align);
        logdevSize := HalfSize(logRegion.size, align);
        region.DestroyNamespaces();
      }
      logRegion.DestroyNamespaces();
      logdevSize := Min(logdevSize, MAX_LOG_SIZE);
      ok := CreateTwo(logRegion, logdevSize, Sector);
      if !ok {
        return;
      }
    } else {
      region.DestroyNamespaces();
      devSize := HalfSize(region.size, align);
    }
    ok := CreateTwo(region, devSize, Fsdax);
  }

  /** All of `plan` exists when `ok`, and otherwise only some first part of it. */
  ghost predicate Reached(made: seq<Namespace>, plan: seq<Namespace>, ok: bool) {
    made <= plan && (ok ==> made == plan)
  }

  method CreateTwo(r: Region, size: int, mode: Mode) returns (ok: bool)
    modifies r
    ensures old(r.namespaces) <= r.namespaces <= old(r.namespaces) + Pair(r, size, mode)
    ensures ok == (r.namespaces == old(r.namespaces) + Pair(r, size, mode))
    ensures !ok ==> exists k :: !r.accepts(k)
  {
    ghost var before := r.namespaces;
    ghost var ns := Namespace(size, r.toolAlign, mode);
    assert before + [ns] + [ns] == before + Pair(r, size, mode);
    ok := r.CreateNamespace(size, mode);
    if ok {
      ok := r.CreateNamespace(size, mode);
    }
  }

  lemma {:induction false} TotalConcat(a: seq<Namespace>, b: seq<Namespace>)
    ensures TotalSize(a + b) == TotalSize(a) + TotalSize(b)
  {
    if b == [] {
      assert a + b == a;
    } else {
      TotalConcat(a, b[..|b| - 1]);
      assert (a + b)[..|a + b| - 1] == a + b[..|b| - 1];
    }
  }

  lemma TotalOfPair(r: Region, size: int, mode: Mode)
    ensures TotalSize(Pair(r, size, mode)) == 2 * size
  {
    TotalOfCopies(Namespace(size, r.toolAlign, mode), 2);
  }

  /** The log cap is a multiple of both platform alignments and within the largest log size
      that xfs accepts. */
  lemma CapKeepsAlignment(hash: bool, size: int)
    requires Divides(SizeAlign(hash), size)
    ensures Divides(SizeAlign(hash), Min(size, MAX_LOG_SIZE))
    ensures Min(size, MAX_LOG_SIZE) <= 2136997888
  {
    DividesIffMod(SizeAlign(hash), MAX_LOG_SIZE);
  }

  lemma TenthOf(size: nat)
    ensures Truncate(size as real * 0.10) == size / 10
  {
    FloorOfQuotient(size as real * 0.10, size, 10);
  }

  /** In a single region an aligned size is at most the data size if and only if two of it fit
      in nine tenths of the region, and at most the log size if and only if two fit in the
      tenth and it is not above the cap. */
  lemma SharedSizesAreLargest(regionSize: nat, hash: bool, size: int)
    requires size % (if hash then 16777216 else 2097152) == 0
    ensures var s := SharedSizes(regionSize, SizeAlign(hash));
            && s.dev % (if hash then 16777216 else 2097152) == 0
            && s.log % (if hash then 16777216 else 2097152) == 0
            && (size <= s.dev <==> 2 * size <= regionSize - regionSize / 10)
            && (size <= s.log <==> 20 * size <= regionSize && size <= 2130706432)
  {
    var align, logPart := SizeAlign(hash), regionSize / 10;
    SharedSizesFit(regionSize, hash);
    DividesIffMod(align, SharedSizes(regionSize, align).dev);
    DividesIffMod(align, SharedSizes(regionSize, align).log);
    DividesIffMod(align, size);
    TenthOf(regionSize);
    AutoSizeIsLargest(regionSize - logPart, 2, align, size);
    AutoSizeIsLargest(logPart, 2, align, size);
    AtMostQuotient(regionSize, 10, 2 * size);
  }

  /** With a region each, the same for halves of the two regions. */
  lemma SeparateSizesAreLargest(regionSize: nat, logRegionSize: nat, hash: bool, size: int)
    requires size % (if hash then 16777216 else 2097152) == 0
    ensures var s := SeparateSizes(regionSize, logRegionSize, SizeAlign(hash));
            && s.dev % (if hash then 16777216 else 2097152) == 0
            && s.log % (if hash then 16777216 else 2097152) == 0
            && (size <= s.dev <==> 2 * size <= regionSize)
            && (size <= s.log <==> 2 * size <= logRegionSize && size <= 2130706432)
  {
    var align := SizeAlign(hash);
    SeparateSizesFit(regionSize, logRegionSize, hash);
    DividesIffMod(align, SeparateSizes(regionSize, logRegionSize, align).dev);
    DividesIffMod(align, SeparateSizes(regionSize, logRegionSize, align).log);
    DividesIffMod(align, size);
    AutoSizeIsLargest(regionSize, 2, align, size);
    AutoSizeIsLargest(logRegionSize, 2, align, size);
  }

  /** In a single region the two data and the two log namespaces fit together, all four
      aligned; unless the logs were capped, less than four alignments are unused. The logs
      are not empty exactly when the region has at least twenty alignments. */
  lemma SharedSizesFit(regionSize: nat, hash: bool)
    ensures var align := SizeAlign(hash);
            var s := SharedSizes(regionSize, align);
            && Divides(align, s.dev) && Divides(align, s.log)
            && 0 <= s.dev && 0 <= s.log <= MAX_LOG_SIZE
            && 2 * s.dev + 2 * s.log <= regionSize
            && (s.log < MAX_LOG_SIZE ==> regionSize - 2 * s.dev - 2 * s.log < 4 * align)
            && (s.log > 0 <==> regionSize >= 20 * align)
  {
    var align := SizeAlign(hash);
    var logPart := regionSize / 10;
    TenthOf(regionSize);
    AutoSizeFillsRegion(regionSize - logPart, 2, align);
    AutoSizeFillsRegion(logPart, 2, align);
    DividesMultiple(align, 0);
    DividesMultiple(align, 1);
    AutoSizeIsLargest(regionSize - logPart, 2, align, 0);
    AutoSizeIsLargest(logPart, 2, align, 0);
    AutoSizeIsLargest(logPart, 2, align, align);
    CapKeepsAlignment(hash, AutoSize(logPart, 2, align));
    if AutoSize(logPart, 2, align) > 0 {
      DividesAtLeast(align, AutoSize(logPart, 2, align));
    }
  }

  /** With a region each, the two data namespaces and the two log namespaces fill their
      region to less than two alignments, the logs up to the cap. */
  lemma SeparateSizesFit(regionSize: nat, logRegionSize: nat, hash: bool)
    ensures var align := SizeAlign(hash);
            var s := SeparateSizes(regionSize, logRegionSize, align);
            && Divides(align, s.dev) && Divides(align, s.log)
            && 0 <= regionSize - 2 * s.dev < 2 * align
            && 0 <= s.log <= MAX_LOG_SIZE && 2 * s.log <= logRegionSize
            && (s.log < MAX_LOG_SIZE ==> logRegionSize - 2 * s.log < 2 * align)
  {
    var align := SizeAlign(hash);
    AutoSizeFillsRegion(regionSize, 2, align);
    AutoSizeFillsRegion(logRegionSize, 2, align);
    DividesMultiple(align, 0);
    AutoSizeIsLargest(regionSize, 2, align, 0);
    AutoSizeIsLargest(logRegionSize, 2, align, 0);
    CapKeepsAlignment(hash, HalfSize(logRegionSize, align));
  }

  /** So whatever the outcome, what exists in a single region after setup fits in it. */
  lemma SharedSetupFits(region: Region, hash: bool, made: seq<Namespace>, ok: bool)
    requires var s := SharedSizes(region.size, SizeAlign(hash));
             Reached(made, Pair(region, s.log, Sector) + Pair(region, s.dev, Fsdax), ok)
    ensures TotalSize(made) <= region.size
    ensures forall ns | ns in made :: ns.size % SizeAlign(hash) == 0
  {
    var s := SharedSizes(region.size, SizeAlign(hash));
    var plan := Pair(region, s.log, Sector) + Pair(region, s.dev, Fsdax);
    SharedSizesFit(region.size, hash);
    DividesIffMod(SizeAlign(hash), s.dev);
    DividesIffMod(SizeAlign(hash), s.log);
    assert made == plan[..|made|];
    assert forall i | 0 <= i < |plan| :: plan[i].size == if i < 2 then s.log else s.dev;
    PrefixTotal(plan, |made|);
    TotalConcat(Pair(region, s.log, Sector), Pair(region, s.dev, Fsdax));
    TotalOfPair(region, s.log, Sector);
    TotalOfPair(region, s.dev, Fsdax);
  }

  lemma {:induction false} PrefixTotal(plan: seq<Namespace>, n: nat)
    requires n <= |plan| && forall i | 0 <= i < |plan| :: plan[i].size >= 0
    ensures TotalSize(plan[..n]) <= TotalSize(plan)
    decreases |plan|
  {
    if n == |plan| {
      assert plan[..n] == plan;
    } else {
      PrefixTotal(plan[..|plan| - 1], n);
      assert plan[..|plan| - 1][..n] == plan[..n];
    }
  }
}
