/** The flat SPIFFS partition: a capacity that is never exceeded, and erase counters spread over a ring of blocks. */
module Spiffs {
  import opened Prelude
  import opened Arithmetic
  import opened FileStore

  const SPIFFS_MAX_FILENAME_CHARS := 32

  datatype IoError = NotConnected | InvalidInput | StorageFull | NotFound

  datatype Io = Done | Failed(error: IoError)

  /** What formatting fixes; `hash` stands for the standard hasher. */
  datatype Geometry = Geometry(partition: U64, block: U64, hash: string -> U64)

  datatype Flash = Flash(files: Files, mounted: bool, cycles: seq<U64>)

  datatype SpiffsOp =
    | Mount
    | Unmount
    | WriteFile(path: string, data: seq<Byte>)
    | DeleteFile(path: string)
    | Format

  // ----- names

  /** One flat name of at most 32 characters, with an optional leading slash. */
  function Resolve(path: string): Option<string> {
    var name := if path != "" && path[0] == '/' then path[1..] else path;
    if name == "" || '/' in name || '\\' in name || name == "." || name == ".." then None
    else if |name| > SPIFFS_MAX_FILENAME_CHARS then None
    else Some(name)
  }

  /** A name needs no slash, may be preceded by one, and is refused if empty, longer than 32, dots or structured. */
  lemma NamesAreFlat(path: string)
    ensures
      var name := if |path| > 0 && path[0] == '/' then path[1..] else path;
      Resolve(path) ==
        if 1 <= |name| <= 32 && name != "." && name != ".." && (forall c :: c in name ==> c != '/' && c != '\\')
        then Some(name) else None
  {}

  // ----- wear

  function BlockCount(g: Geometry): nat {
    if g.block == 0 then 0 else DivCeil(g.partition, g.block)
  }

  /** How often block `b` is passed by `touched` steps round the ring from `start`. */
  function Hits(start: nat, touched: nat, blocks: nat, b: nat): nat
    requires blocks > 0
  {
    if touched == 0 then 0
    else Hits(start, touched - 1, blocks, b) + if (start + touched - 1) % blocks == b then 1 else 0
  }

  function Touched(g: Geometry, changed: nat): nat
    requires g.block > 0
  {
    DivCeil(Max(changed, 1), g.block)
  }

  function Worn(cycles: seq<U64>, start: nat, touched: nat): (out: seq<U64>)
    ensures |out| == |cycles|
  {
    seq<U64>(|cycles|, b requires 0 <= b < |cycles| => Min(cycles[b] + Hits(start, touched, |cycles|, b), U64_MAX))
  }

  function Recorded(g: Geometry, cycles: seq<U64>, name: string, changed: nat): (out: seq<U64>)
    requires cycles != [] ==> g.block > 0
    ensures |out| == |cycles|
  {
    if cycles == [] then cycles else Worn(cycles, g.hash(name) % |cycles|, Touched(g, changed))
  }

  // ----- calls

  /** The room the other files take, in the saturating 64-bit arithmetic of the directory walk. */
  ghost function UsedWithout(files: Files, name: string): nat {
    Max(Min(TotalSize(files), U64_MAX) - SizeOf(files, name), 0)
  }

  ghost function WriteResult(f: Flash, g: Geometry, path: string, data: seq<Byte>): Io {
    if !f.mounted then Failed(NotConnected)
    else if Resolve(path).None? then Failed(InvalidInput)
    else if Min(UsedWithout(f.files, Resolve(path).value) + |data|, U64_MAX) > g.partition then Failed(StorageFull)
    else Done
  }

  function DeleteResult(f: Flash, path: string): Io {
    if !f.mounted then Failed(NotConnected)
    else if Resolve(path).None? then Failed(InvalidInput)
    else if Resolve(path).value !in f.files then Failed(NotFound)
    else Done
  }

  ghost function SpiffsStep(f: Flash, g: Geometry, op: SpiffsOp): (out: Flash)
    requires |f.cycles| == BlockCount(g)
    ensures |out.cycles| == BlockCount(g)
  {
    match op
    case Mount => if g.partition == 0 || g.block == 0 then f else f.(mounted := true)
    case Unmount => f.(mounted := false)
    case WriteFile(path, data) =>
      if !WriteResult(f, g, path, data).Done? then f
      else
        var name := Resolve(path).value;
        f.(files := f.files[name := data], cycles := Recorded(g, f.cycles, name, Max(SizeOf(f.files, name), |data|)))
    case DeleteFile(path) =>
      if !DeleteResult(f, path).Done? then f
      else
        var name := Resolve(path).value;
        f.(files := f.files - {name}, cycles := Recorded(g, f.cycles, name, SizeOf(f.files, name)))
    case Format => Flash(map[], true, seq<U64>(|f.cycles|, i => 0))
  }

  ghost function SpiffsRun(f: Flash, g: Geometry, ops: seq<SpiffsOp>): (out: Flash)
    requires |f.cycles| == BlockCount(g)
    ensures |out.cycles| == BlockCount(g)
  {
    if ops == [] then f else SpiffsStep(SpiffsRun(f, g, ops[..|ops| - 1]), g, ops[|ops| - 1])
  }

  // ----- capacity

  /** The files, as the directory walk adds them up, fit the partition, and there is one counter per block. */
  ghost predicate Fits(f: Flash, g: Geometry) {
    Min(TotalSize(f.files), U64_MAX) <= g.partition && |f.cycles| == BlockCount(g)
  }

  lemma WriteFits(f: Flash, g: Geometry, path: string, data: seq<Byte>)
    requires Fits(f, g)
    ensures Fits(SpiffsStep(f, g, WriteFile(path, data)), g)
  {
    hide TotalSize, Recorded, Resolve;
    if Resolve(path).Some? {
      TotalAfterWrite(f.files, Resolve(path).value, data);
    }
  }

  lemma StepFits(f: Flash, g: Geometry, op: SpiffsOp)
    requires Fits(f, g)
    ensures Fits(SpiffsStep(f, g, op), g)
  {
    hide TotalSize, Recorded, Resolve, WriteResult;
    EmptyTotal();
    match op
    case WriteFile(path, data) => WriteFits(f, g, path, data);
    case DeleteFile(path) =>
      if Resolve(path).Some? {
        TotalAfterDelete(f.files, Resolve(path).value);
      }
    case _ =>
  }

  /**
   MAIN: over every run the sum of the file sizes stays within the partition, in the saturating sum of the
   directory walk; that is the true sum for every partition but one of the largest 64-bit size.
   */
  lemma {:induction false} CapacityHolds(f: Flash, g: Geometry, ops: seq<SpiffsOp>)
    requires Fits(f, g)
    ensures Fits(SpiffsRun(f, g, ops), g)
    ensures g.partition < U64_MAX ==> TotalSize(SpiffsRun(f, g, ops).files) <= g.partition
  {
    hide SpiffsStep, TotalSize;
    if ops != [] {
      CapacityHolds(f, g, ops[..|ops| - 1]);
      StepFits(SpiffsRun(f, g, ops[..|ops| - 1]), g, ops[|ops| - 1]);
    }
  }

  /** MAIN: a mounted partition takes a write under a valid name exactly when the result would fit. */
  lemma WriteAcceptedIffFits(f: Flash, g: Geometry, path: string, data: seq<Byte>)
    requires Fits(f, g) && f.mounted && Resolve(path).Some?
    ensures
      var after := TotalSize(f.files[Resolve(path).value := data]);
      && (WriteResult(f, g, path, data).Done? <==> Min(after, U64_MAX) <= g.partition)
      && (g.partition < U64_MAX ==> (WriteResult(f, g, path, data).Done? <==> after <= g.partition))
  {
    TotalAfterWrite(f.files, Resolve(path).value, data);
  }

  /** At the largest partition size the check compares a saturated sum and lets every write through. */
  lemma LargestPartitionTakesAll(f: Flash, g: Geometry, path: string, data: seq<Byte>)
    requires g.partition == U64_MAX && f.mounted
    ensures WriteResult(f, g, path, data).Done? <==> Resolve(path).Some?
  {}

  // ----- wear levelling

  /** How far round the ring block `b` lies from `start`. */
  function Distance(start: nat, blocks: nat, b: nat): nat
    requires start < blocks && b < blocks
  {
    if b >= start then b - start else b + blocks - start
  }

  lemma RingPosition(start: nat, k: nat, blocks: nat, b: nat)
    requires start < blocks && b < blocks && k < blocks
    ensures (start + k) % blocks == b <==> Distance(start, blocks, b) == k
  {
    if start + k < blocks {
      assert (start + k) % blocks == start + k;
    } else {
      var r := start + k - blocks;
      assert (start + k) % blocks == r by {
        assert start + k == blocks + r && 0 <= r < blocks;
      }
    }
  }

  /** Within one turn of the ring each block is passed at most once, and it is the nearest ones that are. */
  lemma {:induction false} HitsWithinOneTurn(start: nat, touched: nat, blocks: nat, b: nat)
    requires start < blocks && b < blocks && touched <= blocks
    ensures Hits(start, touched, blocks, b) == if Distance(start, blocks, b) < touched then 1 else 0
  {
    if touched > 0 {
      HitsWithinOneTurn(start, touched - 1, blocks, b);
      RingPosition(start, touched - 1, blocks, b);
    }
  }

  lemma DivCeilAlt(a: nat, d: nat)
    requires d > 0
    ensures DivCeil(a, d) == (a + d - 1) / d
  {
    var q, r := a / d, a % d;
    assert a == q * d + r;
    if r == 0 {
      QuotientIs(a + d - 1, d, q);
    } else {
      assert (q + 1) * d == q * d + d;
      QuotientIs(a + d - 1, d, q + 1);
    }
  }

  lemma DivCeilMonotone(a: nat, b: nat, d: nat)
    requires a <= b && d > 0
    ensures DivCeil(a, d) <= DivCeil(b, d)
  {
    DivCeilAlt(a, d);
    DivCeilAlt(b, d);
    QuotientMonotone(a + d - 1, b + d - 1, d);
  }

  /** A device has blocks unless it has no room or no block size. */
  lemma BlocksUnlessEmpty(g: Geometry)
    ensures BlockCount(g) > 0 <==> g.partition > 0 && g.block > 0
  {
    if g.partition > 0 && g.block > 0 {
      DivCeilMonotone(1, g.partition, g.block);
      DivCeilAlt(1, g.block);
      QuotientIs(g.block, g.block, 1);
    } else if g.block > 0 {
      DivCeilAlt(0, g.block);
      QuotientIs(g.block - 1, g.block, 0);
    }
  }

  /** What fits the partition touches no more blocks than there are. */
  lemma TouchedWithinOneTurn(g: Geometry, changed: nat)
    requires g.block > 0 && changed <= g.partition && g.partition > 0
    ensures 1 <= Touched(g, changed) <= BlockCount(g)
  {
    DivCeilMonotone(1, Max(changed, 1), g.block);
    DivCeilMonotone(Max(changed, 1), g.partition, g.block);
    DivCeilAlt(1, g.block);
    QuotientIs(g.block, g.block, 1);
  }

  /** `after` is `before` with the `touched` blocks from `start` on, round the ring, counted up by one. */
  ghost predicate OneEraseEach(before: seq<U64>, after: seq<U64>, start: nat, touched: nat)
    requires start < |before|
  {
    && |after| == |before|
    && forall b :: 0 <= b < |before| ==>
         after[b] == SaturatingAdd(before[b], if Distance(start, |before|, b) < touched then 1 else 0)
  }

  lemma RecordedOnceEach(g: Geometry, cycles: seq<U64>, name: string, changed: nat)
    requires g.block > 0 && g.partition > 0 && changed <= g.partition && |cycles| == BlockCount(g)
    ensures 1 <= Touched(g, changed) <= |cycles|
    ensures OneEraseEach(cycles, Recorded(g, cycles, name, changed), g.hash(name) % |cycles|, Touched(g, changed))
  {
    TouchedWithinOneTurn(g, changed);
    var start := g.hash(name) % |cycles|;
    forall b | 0 <= b < |cycles|
      ensures Hits(start, Touched(g, changed), |cycles|, b)
           == if Distance(start, |cycles|, b) < Touched(g, changed) then 1 else 0
    {
      HitsWithinOneTurn(start, Touched(g, changed), |cycles|, b);
    }
  }

  /** The blocks within `touched` of `start` are exactly `touched` many. */
  lemma {:induction false} DistinctBlocks(start: nat, touched: nat, blocks: nat)
    requires start < blocks && touched <= blocks
    ensures |(set b | 0 <= b < blocks && Distance(start, blocks, b) < touched)| == touched
  {
    var near := set b | 0 <= b < blocks && Distance(start, blocks, b) < touched;
    if touched == 0 {
      assert near == {};
    } else {
      DistinctBlocks(start, touched - 1, blocks);
      var nearer := set b | 0 <= b < blocks && Distance(start, blocks, b) < touched - 1;
      var last := if start + touched - 1 < blocks then start + touched - 1 else start + touched - 1 - blocks;
      assert Distance(start, blocks, last) == touched - 1;
      assert near == nearer + {last};
    }
  }

  /** How many bytes of a file an accepted call changed. */
  function Changed(f: Flash, op: SpiffsOp): nat {
    match op
    case WriteFile(path, data) => if Resolve(path).Some? then Max(SizeOf(f.files, Resolve(path).value), |data|) else 0
    case DeleteFile(path) => if Resolve(path).Some? then SizeOf(f.files, Resolve(path).value) else 0
    case _ => 0
  }

  ghost predicate Changes(f: Flash, g: Geometry, op: SpiffsOp) {
    match op
    case WriteFile(path, data) => WriteResult(f, g, path, data).Done?
    case DeleteFile(path) => DeleteResult(f, path).Done?
    case _ => false
  }

  /** Blocks of the given size that hold an amount of bytes: as few as will do. */
  predicate JustHold(blocks: nat, size: nat, bytes: nat) {
    bytes <= blocks * size < bytes + size
  }

  lemma CeilJustHolds(bytes: nat, size: nat)
    requires size > 0
    ensures JustHold(DivCeil(bytes, size), size, bytes)
  {
    var q := bytes / size;
    assert bytes == q * size + bytes % size;
    assert (q + 1) * size == q * size + size;
  }

  /** The blocks a call wears out: as few as hold the bytes changed, and at least one. */
  ghost predicate WearsOut(before: seq<U64>, after: seq<U64>, size: nat, start: nat, changed: nat, blocks: nat)
    requires start < |before|
  {
    && JustHold(blocks, size, Max(changed, 1)) && 1 <= blocks <= |before|
    && OneEraseEach(before, after, start, blocks)
    && |(set i | 0 <= i < |before| && Distance(start, |before|, i) < blocks)| == blocks
  }

  /**
   MAIN: after any run, an accepted write or delete counts up as few blocks as hold the bytes changed (one for
   none), one after the other round the ring from the block its name hashes to, each of them once, and no others,
   on every device that has blocks; and the device has as few blocks as hold its partition. A write changes the
   longer of the old and the new contents, a delete the old ones. (A file length is a 64-bit number.)
   */
  lemma WearIsExact(f: Flash, g: Geometry, ops: seq<SpiffsOp>, op: SpiffsOp)
    requires BlockCount(g) > 0 && Fits(f, g) && Changes(SpiffsRun(f, g, ops), g, op)
    requires Changed(SpiffsRun(f, g, ops), op) <= U64_MAX
    ensures
      var a := SpiffsRun(f, g, ops);
      var b, name := SpiffsStep(a, g, op), Resolve(op.path).value;
      var size := if name in a.files then |a.files[name]| else 0;
      var changed := if op.WriteFile? then Max(size, |op.data|) else size;
      && |a.cycles| > 0 && g.block > 0 && JustHold(|a.cycles|, g.block, g.partition)
      && exists blocks: nat :: WearsOut(a.cycles, b.cycles, g.block, g.hash(name) % |a.cycles|, changed, blocks)
  {
    hide TotalSize, Worn, OneEraseEach, JustHold, DivCeil;
    CapacityHolds(f, g, ops);
    BlocksUnlessEmpty(g);
    var a := SpiffsRun(f, g, ops);
    var b, name, changed := SpiffsStep(a, g, op), Resolve(op.path).value, Changed(a, op);
    TotalAfterWrite(a.files, name, if op.WriteFile? then op.data else []);
    RecordedOnceEach(g, a.cycles, name, changed);
    DistinctBlocks(g.hash(name) % |a.cycles|, Touched(g, changed), |a.cycles|);
    CeilJustHolds(g.partition, g.block);
    CeilJustHolds(Max(changed, 1), g.block);
    assert WearsOut(a.cycles, b.cycles, g.block, g.hash(name) % |a.cycles|, changed, Touched(g, changed));
  }

  /**
   Formatting mounts a device without room or without a block size too. It wears nothing, and one without room
   takes empty files only.
   */
  lemma NoBlocksNoWear(f: Flash, g: Geometry, ops: seq<SpiffsOp>, op: SpiffsOp)
    requires BlockCount(g) == 0 && Fits(f, g) && Changes(SpiffsRun(f, g, ops), g, op)
    ensures
      var a := SpiffsRun(f, g, ops);
      && a.cycles == SpiffsStep(a, g, op).cycles == []
      && (g.partition == 0 || g.block == 0)
      && (g.partition == 0 && op.WriteFile? ==> op.data == [])
  {
    hide TotalSize;
    BlocksUnlessEmpty(g);
    CapacityHolds(f, g, ops);
  }
}
