/**
 SD stream handles on top of whole-file reads and writes: appenders build a log, readers follow it.

 `granted` on a call says that the board is powered, the card mounted and both buses free at that moment;
 `resolve` turns a path into the file it names, or nothing for a path outside the card.
 */
module SdSpec {
  import opened Prelude
  import opened FileStore

  const FAT32_MAX_FILE_SIZE := 4 * 1024 * 1024 * 1024 - 1
  const I32_MAX := 0x7FFF_FFFF

  datatype Card = Card(capacity: U64, resolve: string -> Option<string>)

  datatype SdHandle = SdHandle(path: string, position: nat, writable: bool, append: bool)

  datatype Sd = Sd(files: Files, handles: map<nat, SdHandle>)

  datatype SdOp =
    | Open(path: string, mode: Byte, granted: bool)
    | Write(handle: nat, data: seq<Byte>, granted: bool)
    | Read(handle: nat, maxLen: nat, granted: bool)
    | Close(handle: nat)
    | Remove(path: string, granted: bool)

  // ----- the card

  function Lookup(card: Card, files: Files, path: string): Option<seq<Byte>> {
    match card.resolve(path)
    case None => None
    case Some(name) => if name in files then Some(files[name]) else None
  }

  ghost predicate Stores(card: Card, files: Files, path: string, data: seq<Byte>) {
    && |data| <= FAT32_MAX_FILE_SIZE
    && card.resolve(path).Some?
    && var usedWithoutFile := Max(Min(TotalSize(files), U64_MAX) - SizeOf(files, card.resolve(path).value), 0);
       Min(usedWithoutFile + |data|, U64_MAX) <= card.capacity
  }

  /** `write_file`: the whole file replaced, or nothing. */
  ghost function Stored(card: Card, files: Files, path: string, data: seq<Byte>): Option<Files> {
    if Stores(card, files, path, data) then Some(files[card.resolve(path).value := data]) else None
  }

  // ----- handles

  /** The smallest of 1..=255 that is not in use, or 0. */
  function FreeFrom(handles: map<nat, SdHandle>, n: nat): nat
    decreases 256 - n
  {
    if n > 255 then 0 else if n !in handles then n else FreeFrom(handles, n + 1)
  }

  /** The files and the handle an `open` in the given mode produces. */
  ghost function Opened(card: Card, s: Sd, path: string, mode: Byte): Option<(Files, SdHandle)> {
    if mode == 0 then
      if Lookup(card, s.files, path).Some? then Some((s.files, SdHandle(path, 0, false, false))) else None
    else if mode == 1 then
      match Stored(card, s.files, path, [])
      case Some(files) => Some((files, SdHandle(path, 0, true, false)))
      case None => None
    else if mode == 2 then
      match Lookup(card, s.files, path)
      case Some(data) => Some((s.files, SdHandle(path, |data|, true, true)))
      case None =>
        match Stored(card, s.files, path, [])
        case Some(files) => Some((files, SdHandle(path, 0, true, true)))
        case None => None
    else None
  }

  /** `contents` overwritten with `data` at `position`, grown if need be. */
  function Overwrite(contents: seq<Byte>, position: nat, data: seq<Byte>): seq<Byte>
    requires position <= |contents|
  {
    contents[..position] + data + contents[Min(position + |data|, |contents|)..]
  }

  /** Where a write through `h` lands. */
  function WritePosition(h: SdHandle, contents: seq<Byte>): nat {
    if h.append then |contents| else h.position
  }

  ghost predicate WriteSucceeds(card: Card, s: Sd, op: SdOp)
    requires op.Write?
  {
    && |op.data| <= I32_MAX && op.handle in s.handles && s.handles[op.handle].writable && op.granted
    && var h := s.handles[op.handle];
       && Lookup(card, s.files, h.path).Some?
       && var contents := Lookup(card, s.files, h.path).value;
          && WritePosition(h, contents) <= |contents|
          && Stores(card, s.files, h.path, Overwrite(contents, WritePosition(h, contents), op.data))
  }

  predicate ReadSucceeds(card: Card, s: Sd, op: SdOp)
    requires op.Read?
  {
    && op.maxLen <= I32_MAX && op.handle in s.handles && !s.handles[op.handle].writable && op.granted
    && Lookup(card, s.files, s.handles[op.handle].path).Some?
  }

  /** What a read hands out; nothing at all when it fails. */
  function ReadBytes(card: Card, s: Sd, op: SdOp): seq<Byte>
    requires op.Read?
  {
    if !ReadSucceeds(card, s, op) then []
    else
      var h := s.handles[op.handle];
      var contents := Lookup(card, s.files, h.path).value;
      if h.position >= |contents| then []
      else contents[h.position..h.position + Min(|contents| - h.position, op.maxLen)]
  }

  /** The handle after a write was attempted: an appender notices the end of the file even when the card refuses. */
  ghost function HandleAfterWrite(card: Card, s: Sd, op: SdOp): SdHandle
    requires op.Write? && op.handle in s.handles
  {
    var h := s.handles[op.handle];
    if |op.data| > I32_MAX || !h.writable || !op.granted || Lookup(card, s.files, h.path).None? then h
    else
      var p := WritePosition(h, Lookup(card, s.files, h.path).value);
      if WriteSucceeds(card, s, op) then h.(position := p + |op.data|) else h.(position := p)
  }

  ghost function SdStep(card: Card, s: Sd, op: SdOp): Sd {
    match op
    case Open(path, mode, granted) =>
      if !granted || FreeFrom(s.handles, 1) == 0 then s
      else
        (match Opened(card, s, path, mode)
         case None => s
         case Some((files, h)) => Sd(files, s.handles[FreeFrom(s.handles, 1) := h]))
    case Write(handle, data, granted) =>
      if handle !in s.handles then s
      else
        var h := s.handles[handle];
        var handles := s.handles[handle := HandleAfterWrite(card, s, op)];
        if !WriteSucceeds(card, s, op) then s.(handles := handles)
        else
          var contents := Lookup(card, s.files, h.path).value;
          Sd(s.files[card.resolve(h.path).value := Overwrite(contents, WritePosition(h, contents), data)], handles)
    case Read(handle, maxLen, granted) =>
      if handle !in s.handles then s
      else
        var h := s.handles[handle];
        s.(handles := s.handles[handle := h.(position := h.position + |ReadBytes(card, s, op)|)])
    case Close(handle) => s.(handles := s.handles - {handle})
    case Remove(path, granted) =>
      if granted && card.resolve(path).Some? then s.(files := s.files - {card.resolve(path).value}) else s
  }

  ghost function SdRun(card: Card, s: Sd, ops: seq<SdOp>): Sd {
    if ops == [] then s else SdStep(card, SdRun(card, s, ops[..|ops| - 1]), ops[|ops| - 1])
  }

  // ----- a file that is only appended to

  function Contents(s: Sd, name: string): seq<Byte> {
    if name in s.files then s.files[name] else []
  }

  /** The call neither truncates nor removes file `name`. */
  predicate OnlyAppends(card: Card, op: SdOp, name: string) {
    match op
    case Open(path, mode, _) => mode == 1 ==> card.resolve(path) != Some(name)
    case Remove(path, _) => card.resolve(path) != Some(name)
    case _ => true
  }

  /** Every handle that can write to `name` is an appender. */
  predicate Appenders(card: Card, s: Sd, name: string) {
    forall n :: n in s.handles && s.handles[n].writable && card.resolve(s.handles[n].path) == Some(name) ==>
      s.handles[n].append
  }

  /** The bytes a call adds to `name`: the data of a write that succeeds. */
  ghost function Appended(card: Card, s: Sd, op: SdOp, name: string): seq<Byte> {
    if op.Write? && WriteSucceeds(card, s, op) && card.resolve(s.handles[op.handle].path) == Some(name) then op.data
    else []
  }

  ghost function AllAppended(card: Card, s: Sd, ops: seq<SdOp>, name: string): seq<Byte> {
    if ops == [] then []
    else
      var before := ops[..|ops| - 1];
      AllAppended(card, s, before, name) + Appended(card, SdRun(card, s, before), ops[|ops| - 1], name)
  }

  /** Overwriting replaces exactly the written range and never shortens the file. */
  lemma OverwriteBytes(contents: seq<Byte>, position: nat, data: seq<Byte>)
    requires position <= |contents|
    ensures |Overwrite(contents, position, data)| == Max(|contents|, position + |data|)
    ensures forall i :: 0 <= i < Max(|contents|, position + |data|) ==>
              Overwrite(contents, position, data)[i]
              == if position <= i < position + |data| then data[i - position] else contents[i]
  {}

  lemma OverwriteAtEnd(contents: seq<Byte>, data: seq<Byte>)
    ensures Overwrite(contents, |contents|, data) == contents + data
  {}

  lemma OpenAppends(card: Card, s: Sd, op: SdOp, name: string)
    requires op.Open? && Appenders(card, s, name) && OnlyAppends(card, op, name)
    ensures Appenders(card, SdStep(card, s, op), name)
    ensures Contents(SdStep(card, s, op), name) == Contents(s, name)
  {
    hide TotalSize, FreeFrom;
  }

  lemma WriteAppends(card: Card, s: Sd, op: SdOp, name: string)
    requires op.Write? && Appenders(card, s, name)
    ensures Appenders(card, SdStep(card, s, op), name)
    ensures Contents(SdStep(card, s, op), name) == Contents(s, name) + Appended(card, s, op, name)
  {
    hide Stores, Overwrite;
    if op.handle in s.handles && WriteSucceeds(card, s, op) && card.resolve(s.handles[op.handle].path) == Some(name) {
      OverwriteAtEnd(Contents(s, name), op.data);
    } else {
      assert Contents(s, name) + [] == Contents(s, name);
    }
  }

  lemma StepAppends(card: Card, s: Sd, op: SdOp, name: string)
    requires Appenders(card, s, name) && OnlyAppends(card, op, name)
    ensures Appenders(card, SdStep(card, s, op), name)
    ensures Contents(SdStep(card, s, op), name) == Contents(s, name) + Appended(card, s, op, name)
  {
    hide WriteSucceeds, ReadBytes, Opened;
    match op
    case Open(_, _, _) => OpenAppends(card, s, op, name); assert Contents(s, name) + [] == Contents(s, name);
    case Write(_, _, _) => WriteAppends(card, s, op, name);
    case _ => assert Contents(s, name) + [] == Contents(s, name);
  }

  /**
   MAIN: while a file is written only through append handles, any interleaving of opens, writes, reads and
   closes on any number of handles leaves in it what was there, and then the data of every successful write to
   it, in call order.
   */
  lemma {:induction false} AppendersBuildALog(card: Card, s: Sd, ops: seq<SdOp>, name: string)
    requires Appenders(card, s, name) && forall i :: 0 <= i < |ops| ==> OnlyAppends(card, ops[i], name)
    ensures Appenders(card, SdRun(card, s, ops), name)
    ensures Contents(SdRun(card, s, ops), name) == Contents(s, name) + AllAppended(card, s, ops, name)
  {
    hide SdStep, Appended, Contents, Appenders;
    if ops == [] {
      assert Contents(s, name) + [] == Contents(s, name);
    } else {
      var before, op := ops[..|ops| - 1], ops[|ops| - 1];
      AppendersBuildALog(card, s, before, name);
      StepAppends(card, SdRun(card, s, before), op, name);
      var contents, appended := Contents(s, name), AllAppended(card, s, before, name);
      var more := Appended(card, SdRun(card, s, before), op, name);
      assert contents + (appended + more) == (contents + appended) + more;
    }
  }

  // ----- readers follow the log

  /** Everything handle `n` has read during the run. */
  ghost function ReadLog(card: Card, s: Sd, ops: seq<SdOp>, n: nat): seq<Byte> {
    if ops == [] then []
    else
      var before, op := ops[..|ops| - 1], ops[|ops| - 1];
      ReadLog(card, s, before, n)
      + if op.Read? && op.handle == n then ReadBytes(card, SdRun(card, s, before), op) else []
  }

  /** Handle `n` reads file `name` and has got as far as `log`. */
  predicate Reads(card: Card, s: Sd, n: nat, name: string, log: seq<Byte>) {
    && n in s.handles && !s.handles[n].writable && card.resolve(s.handles[n].path) == Some(name)
    && s.handles[n].position == |log| && log <= Contents(s, name)
  }

  lemma StepReads(card: Card, s: Sd, op: SdOp, n: nat, name: string, log: seq<Byte>)
    requires Reads(card, s, n, name, log) && Appenders(card, s, name) && OnlyAppends(card, op, name) && op != Close(n)
    ensures
      var got := if op.Read? && op.handle == n then ReadBytes(card, s, op) else [];
      Reads(card, SdStep(card, s, op), n, name, log + got)
  {
    hide WriteSucceeds, Opened, Appenders;
    StepAppends(card, s, op, name);
    FreeIsSmallest(s.handles, 1);
    if op.Read? && op.handle == n {
      ReadExtends(card, s, op, n, name, log);
    } else {
      assert log + [] == log;
    }
  }

  lemma ReadExtends(card: Card, s: Sd, op: SdOp, n: nat, name: string, log: seq<Byte>)
    requires Reads(card, s, n, name, log) && op.Read? && op.handle == n
    ensures log + ReadBytes(card, s, op) <= Contents(s, name)
  {
    var contents := Contents(s, name);
    var got := ReadBytes(card, s, op);
    if got != [] {
      assert contents[|log|..|log| + |got|] == got;
    }
  }

  /**
   MAIN: a handle opened for reading such a file reads, call after call, a prefix of what the file holds,
   however much is appended meanwhile and however the reads are cut.
   */
  lemma {:induction false} ReaderSeesAPrefix(card: Card, s: Sd, ops: seq<SdOp>, n: nat, name: string)
    requires Reads(card, s, n, name, []) && Appenders(card, s, name)
    requires forall i :: 0 <= i < |ops| ==> OnlyAppends(card, ops[i], name) && ops[i] != Close(n)
    ensures Reads(card, SdRun(card, s, ops), n, name, ReadLog(card, s, ops, n))
    ensures ReadLog(card, s, ops, n) <= Contents(SdRun(card, s, ops), name)
  {
    hide SdStep, ReadBytes, Appenders;
    if ops != [] {
      var before, op := ops[..|ops| - 1], ops[|ops| - 1];
      ReaderSeesAPrefix(card, s, before, n, name);
      AppendersBuildALog(card, s, before, name);
      StepReads(card, SdRun(card, s, before), op, n, name, ReadLog(card, s, before, n));
    }
  }

  /** A reader that asks for at least what is left has read the whole file. */
  lemma ReaderCatchesUp(card: Card, s: Sd, n: nat, name: string, log: seq<Byte>, maxLen: nat)
    requires Reads(card, s, n, name, log) && |Contents(s, name)| - |log| <= maxLen <= I32_MAX
    requires name in s.files
    ensures log + ReadBytes(card, s, Read(n, maxLen, true)) == Contents(s, name)
  {}

  /** A read handle starts with nothing read. */
  lemma OpenForReading(card: Card, s: Sd, path: string, name: string)
    requires card.resolve(path) == Some(name) && name in s.files && FreeFrom(s.handles, 1) != 0
    ensures Reads(card, SdStep(card, s, Open(path, 0, true)), FreeFrom(s.handles, 1), name, [])
  {}

  // ----- opening and reading

  /** Opening for writing empties the file, whether it was there or not, and touches no other. */
  lemma OpenTruncates(card: Card, s: Sd, path: string, n: nat)
    requires n !in s.handles && n in SdStep(card, s, Open(path, 1, true)).handles
    ensures
      var a := SdStep(card, s, Open(path, 1, true));
      && card.resolve(path).Some? && a.files == s.files[card.resolve(path).value := []]
      && a.handles == s.handles[n := SdHandle(path, 0, true, false)]
  {
    hide TotalSize, FreeFrom;
  }

  /** Opening for appending creates the file if it is not there, keeps it if it is, and starts at its end. */
  lemma OpenForAppending(card: Card, s: Sd, path: string, n: nat)
    requires n !in s.handles && n in SdStep(card, s, Open(path, 2, true)).handles
    ensures
      var a := SdStep(card, s, Open(path, 2, true));
      && card.resolve(path).Some?
      && var name := card.resolve(path).value;
         && a.files == s.files[name := Contents(s, name)]
         && a.handles == s.handles[n := SdHandle(path, |Contents(s, name)|, true, true)]
  {
    hide TotalSize, FreeFrom;
    if card.resolve(path).Some? && card.resolve(path).value in s.files {
      assert s.files[card.resolve(path).value := Contents(s, card.resolve(path).value)] == s.files;
    }
  }

  /** A handle is the smallest free number from 1 to 255; a call that cannot have one changes nothing. */
  lemma {:induction false} FreeIsSmallest(handles: map<nat, SdHandle>, n: nat)
    ensures
      var free := FreeFrom(handles, n);
      && (free != 0 ==> free !in handles && n <= free <= 255 && forall k :: n <= k < free ==> k in handles)
      && (free == 0 && n > 0 ==> forall k :: n <= k <= 255 ==> k in handles)
    decreases 256 - n
  {
    if n <= 255 && n in handles {
      FreeIsSmallest(handles, n + 1);
    }
  }

  /** A read hands out what lies between its position and the end, or as much of it as the buffer holds. */
  lemma ReadIsExact(card: Card, s: Sd, n: nat, maxLen: nat, granted: bool)
    ensures
      var op := Read(n, maxLen, granted);
      && (ReadSucceeds(card, s, op)
          <==> && maxLen <= 0x7FFF_FFFF && granted && n in s.handles && !s.handles[n].writable
               && card.resolve(s.handles[n].path).Some? && card.resolve(s.handles[n].path).value in s.files)
      && (ReadSucceeds(card, s, op) ==>
            var contents, p := s.files[card.resolve(s.handles[n].path).value], s.handles[n].position;
            var got := ReadBytes(card, s, op);
            && |got| == Min(maxLen, Max(|contents| - p, 0))
            && forall i :: 0 <= i < |got| ==> got[i] == contents[p + i])
  {}

  // ----- a file with a single writer

  /** Handle `n`, not an appender, has written file `name` up to its end, and no other handle can write to it. */
  predicate SoleWriter(card: Card, s: Sd, n: nat, name: string) {
    && n in s.handles && card.resolve(s.handles[n].path) == Some(name) && s.handles[n].writable && !s.handles[n].append
    && name in s.files && s.handles[n].position == |s.files[name]|
    && OnlyWriter(card, s, n, name)
  }

  predicate OnlyWriter(card: Card, s: Sd, n: nat, name: string) {
    forall k :: k in s.handles && k != n && s.handles[k].writable ==> card.resolve(s.handles[k].path) != Some(name)
  }

  /** The call neither closes `n` nor removes the file nor opens it for writing a second time. */
  predicate LeavesAlone(card: Card, op: SdOp, n: nat, name: string) {
    match op
    case Open(path, mode, _) => mode == 0 || card.resolve(path) != Some(name)
    case Remove(path, _) => card.resolve(path) != Some(name)
    case Close(k) => k != n
    case _ => true
  }

  lemma WriterStep(card: Card, s: Sd, op: SdOp, n: nat, name: string)
    requires SoleWriter(card, s, n, name) && LeavesAlone(card, op, n, name)
    ensures SoleWriter(card, SdStep(card, s, op), n, name)
    ensures Contents(SdStep(card, s, op), name) == Contents(s, name) + Appended(card, s, op, name)
  {
    hide TotalSize, FreeFrom, Overwrite, WriteSucceeds;
    FreeIsSmallest(s.handles, 1);
    if op.Write? {
      WriterWrites(card, s, op, n, name);
    } else {
      assert Contents(s, name) + [] == Contents(s, name);
    }
  }

  lemma WriterWrites(card: Card, s: Sd, op: SdOp, n: nat, name: string)
    requires SoleWriter(card, s, n, name) && op.Write?
    ensures SoleWriter(card, SdStep(card, s, op), n, name)
    ensures Contents(SdStep(card, s, op), name) == Contents(s, name) + Appended(card, s, op, name)
  {
    hide Stores, Overwrite;
    OverwriteAtEnd(Contents(s, name), op.data);
    assert Contents(s, name) + [] == Contents(s, name);
  }

  lemma {:induction false} WriterWritesOn(card: Card, s: Sd, ops: seq<SdOp>, n: nat, name: string)
    requires SoleWriter(card, s, n, name) && forall i :: 0 <= i < |ops| ==> LeavesAlone(card, ops[i], n, name)
    ensures SoleWriter(card, SdRun(card, s, ops), n, name)
    ensures Contents(SdRun(card, s, ops), name) == Contents(s, name) + AllAppended(card, s, ops, name)
  {
    hide SdStep, Appended, Contents, SoleWriter;
    if ops == [] {
      assert Contents(s, name) + [] == Contents(s, name);
    } else {
      var before, op := ops[..|ops| - 1], ops[|ops| - 1];
      WriterWritesOn(card, s, before, n, name);
      WriterStep(card, SdRun(card, s, before), op, n, name);
      var contents, appended := Contents(s, name), AllAppended(card, s, before, name);
      var more := Appended(card, SdRun(card, s, before), op, name);
      assert contents + (appended + more) == (contents + appended) + more;
    }
  }

  /**
   MAIN: a file opened for writing, and reached for writing through that one handle only, holds exactly the data
   of its successful writes, one after the other, whatever it held before and whatever else happens on the card.
   */
  lemma WriterStartsAfresh(card: Card, s: Sd, path: string, n: nat, ops: seq<SdOp>)
    requires n !in s.handles && n in SdStep(card, s, Open(path, 1, true)).handles
    requires card.resolve(path).Some? ==> OnlyWriter(card, s, n, card.resolve(path).value)
    requires forall i :: 0 <= i < |ops| && card.resolve(path).Some? ==>
               LeavesAlone(card, ops[i], n, card.resolve(path).value)
    ensures card.resolve(path).Some?
    ensures
      var a, name := SdStep(card, s, Open(path, 1, true)), card.resolve(path).value;
      name in SdRun(card, a, ops).files && SdRun(card, a, ops).files[name] == AllAppended(card, a, ops, name)
  {
    hide SdStep, AllAppended;
    OpenTruncates(card, s, path, n);
    var a, name := SdStep(card, s, Open(path, 1, true)), card.resolve(path).value;
    WriterWritesOn(card, a, ops, n, name);
    assert [] + AllAppended(card, a, ops, name) == AllAppended(card, a, ops, name);
  }

  // ----- capacity

  ghost predicate CardFits(card: Card, s: Sd) {
    Min(TotalSize(s.files), U64_MAX) <= card.capacity
  }

  lemma StoredFits(card: Card, files: Files, path: string, data: seq<Byte>)
    requires Min(TotalSize(files), U64_MAX) <= card.capacity && Stores(card, files, path, data)
    ensures Min(TotalSize(files[card.resolve(path).value := data]), U64_MAX) <= card.capacity
  {
    TotalAfterWrite(files, card.resolve(path).value, data);
  }

  /**
   A card that has not been overfilled stores a file exactly if its path is on the card, it is below 4 GiB, and the
   card would not be overfilled after it; and then it replaces that file and no other.
   */
  lemma StoredIffFits(card: Card, files: Files, path: string, data: seq<Byte>)
    requires Min(TotalSize(files), U64_MAX) <= card.capacity
    ensures Stored(card, files, path, data).Some?
       <==> && card.resolve(path).Some? && |data| < 0x1_0000_0000
            && Min(TotalSize(files[card.resolve(path).value := data]), U64_MAX) <= card.capacity
    ensures Stored(card, files, path, data).Some? ==>
              Stored(card, files, path, data).value == files[card.resolve(path).value := data]
  {
    hide TotalSize;
    if card.resolve(path).Some? {
      TotalAfterWrite(files, card.resolve(path).value, data);
    }
  }

  /**
   A write succeeds exactly through a granted, writable handle whose file is there and reaches up to the place of
   the write, if the file stays below 4 GiB and the card is not overfilled. It then overwrites from that place on,
   which is the end for an appender, and leaves the handle behind what it wrote.
   */
  lemma WriteIsExact(card: Card, s: Sd, n: nat, data: seq<Byte>, granted: bool)
    requires CardFits(card, s) && n in s.handles && card.resolve(s.handles[n].path).Some?
    requires card.resolve(s.handles[n].path).value in s.files
    ensures
      var op, h, name := Write(n, data, granted), s.handles[n], card.resolve(s.handles[n].path).value;
      var place := if h.append then |s.files[name]| else h.position;
      var grown := Max(|s.files[name]|, place + |data|);
      (WriteSucceeds(card, s, op)
       <==> && |data| <= 0x7FFF_FFFF && granted && h.writable && place <= |s.files[name]|
            && grown < 0x1_0000_0000 && Min(TotalSize(s.files) - |s.files[name]| + grown, U64_MAX) <= card.capacity)
      && (WriteSucceeds(card, s, op) ==>
            && SdStep(card, s, op).files == s.files[name := Overwrite(s.files[name], place, data)]
            && SdStep(card, s, op).handles == s.handles[n := h.(position := place + |data|)])
      && (!WriteSucceeds(card, s, op) ==> SdStep(card, s, op).files == s.files)
  {
    hide TotalSize, Overwrite;
    var h, name := s.handles[n], card.resolve(s.handles[n].path).value;
    var place := if h.append then |s.files[name]| else h.position;
    if place <= |s.files[name]| {
      var after := Overwrite(s.files[name], place, data);
      OverwriteBytes(s.files[name], place, data);
      StoredIffFits(card, s.files, h.path, after);
      TotalAfterWrite(s.files, name, after);
    }
  }

  lemma StepCardFits(card: Card, s: Sd, op: SdOp)
    requires CardFits(card, s)
    ensures CardFits(card, SdStep(card, s, op))
  {
    hide TotalSize, FreeFrom, Stores, Overwrite, ReadBytes;
    match op
    case Open(path, mode, granted) =>
      if Stores(card, s.files, path, []) {
        StoredFits(card, s.files, path, []);
      }
    case Write(handle, data, granted) =>
      if handle in s.handles && WriteSucceeds(card, s, op) {
        var h := s.handles[handle];
        var contents := Lookup(card, s.files, h.path).value;
        StoredFits(card, s.files, h.path, Overwrite(contents, WritePosition(h, contents), data));
      }
    case Remove(path, granted) =>
      if card.resolve(path).Some? {
        TotalAfterDelete(s.files, card.resolve(path).value);
      }
    case _ =>
  }

  /** MAIN: over every run of stream calls the card never holds more than its capacity, as it adds files up. */
  lemma {:induction false} CardCapacityHolds(card: Card, s: Sd, ops: seq<SdOp>)
    requires CardFits(card, s)
    ensures CardFits(card, SdRun(card, s, ops))
    ensures card.capacity < U64_MAX ==> TotalSize(SdRun(card, s, ops).files) <= card.capacity
  {
    hide SdStep, TotalSize;
    if ops != [] {
      CardCapacityHolds(card, s, ops[..|ops| - 1]);
      StepCardFits(card, SdRun(card, s, ops[..|ops| - 1]), ops[|ops| - 1]);
    }
  }
}
