/** The SPIFFS partition as the program runs it. */
module SpiffsDevice {
  import opened Prelude
  import opened FileStore
  import opened Spiffs

  class VirtualSpiffs {
    const geometry: Geometry
    var files: Files
    var mounted: bool
    const writeCycles: array<U64>

    ghost function State(): Flash
      reads this, writeCycles
    {
      Flash(files, mounted, writeCycles[..])
    }

    /** One counter per block. */
    ghost predicate Valid() {
      writeCycles.Length == BlockCount(geometry)
    }

    constructor (geometry: Geometry)
      ensures Valid()
      ensures this.geometry == geometry && fresh(writeCycles) && writeCycles.Length == BlockCount(geometry)
      ensures State() == Flash(map[], false, seq<U64>(BlockCount(geometry), i => 0))
    {
      this.geometry := geometry;
      files, mounted := map[], false;
      writeCycles := new U64[BlockCount(geometry)](_ => 0);
      new;
      assert writeCycles[..] == seq<U64>(BlockCount(geometry), i => 0);
    }

    /** Refuses a geometry without room or without blocks. */
    method MountPartition() returns (result: Io)
      requires Valid()
      modifies this`mounted
      ensures result == (if geometry.partition == 0 || geometry.block == 0 then Failed(InvalidInput) else Done)
      ensures State() == SpiffsStep(old(State()), geometry, Mount)
      ensures mounted <==> old(mounted) || result.Done?
    {
      if geometry.partition == 0 || geometry.block == 0 {
        return Failed(InvalidInput);
      }
      mounted := true;
      return Done;
    }

    method UnmountPartition()
      requires Valid()
      modifies this`mounted
      ensures State() == SpiffsStep(old(State()), geometry, Unmount)
      ensures !mounted
    {
      mounted := false;
    }

    method WriteToFile(path: string, data: seq<Byte>) returns (result: Io)
      requires Valid()
      modifies this`files, writeCycles
      ensures result == WriteResult(old(State()), geometry, path, data)
      ensures result == Failed(NotConnected) <==> !mounted
      ensures result == Failed(InvalidInput) <==> mounted && Resolve(path).None?
      ensures State() == SpiffsStep(old(State()), geometry, WriteFile(path, data))
      ensures result.Done? ==>
                mounted && Resolve(path).Some? && files == old(files)[Resolve(path).value := data]
      ensures !result.Done? ==> State() == old(State())
    {
      hide Recorded, Resolve, TotalSize;
      if !mounted {
        return Failed(NotConnected);
      }
      var resolved := Resolve(path);
      if resolved.None? {
        return Failed(InvalidInput);
      }
      var filename := resolved.value;
      var oldSize := SizeOf(files, filename);
      var used := UsedBytes(files);
      var usedWithoutFile := Max(used - oldSize, 0);
      if Min(usedWithoutFile + |data|, U64_MAX) > geometry.partition {
        return Failed(StorageFull);
      }
      files := files[filename := data];
      RecordWrite(filename, Max(oldSize, |data|));
      return Done;
    }

    method DeleteFromStore(path: string) returns (result: Io)
      requires Valid()
      modifies this`files, writeCycles
      ensures result == DeleteResult(old(State()), path)
      ensures result == Failed(NotConnected) <==> !mounted
      ensures result == Failed(InvalidInput) <==> mounted && Resolve(path).None?
      ensures State() == SpiffsStep(old(State()), geometry, DeleteFile(path))
      ensures result.Done? ==>
                mounted && Resolve(path).Some? && Resolve(path).value in old(files)
                && files == old(files) - {Resolve(path).value}
      ensures !result.Done? ==> State() == old(State())
      ensures result == Failed(NotFound) <==> mounted && Resolve(path).Some? && Resolve(path).value !in old(files)
    {
      hide Recorded, Resolve;
      if !mounted {
        return Failed(NotConnected);
      }
      var resolved := Resolve(path);
      if resolved.None? {
        return Failed(InvalidInput);
      }
      var filename := resolved.value;
      if filename !in files {
        return Failed(NotFound);
      }
      var oldSize := |files[filename]|;
      files := files - {filename};
      RecordWrite(filename, oldSize);
      return Done;
    }

    method FormatPartition()
      requires Valid()
      modifies this`files, this`mounted, writeCycles
      ensures State() == SpiffsStep(old(State()), geometry, Format)
      ensures mounted && files == map[] && forall b :: 0 <= b < writeCycles.Length ==> writeCycles[b] == 0
    {
      files := map[];
      forall i | 0 <= i < writeCycles.Length {
        writeCycles[i] := 0;
      }
      mounted := true;
      assert writeCycles[..] == seq<U64>(writeCycles.Length, i => 0);
    }

    /** Counts up the blocks a write touches, round the ring. */
    method RecordWrite(filename: string, changedBytes: nat)
      requires Valid()
      modifies writeCycles
      ensures writeCycles[..] == Recorded(geometry, old(writeCycles[..]), filename, changedBytes)
    {
      if writeCycles.Length == 0 {
        assert writeCycles[..] == [];
        return;
      }
      var start := geometry.hash(filename) % writeCycles.Length;
      var touched := DivCeil(Max(changedBytes, 1), geometry.block);
      for offset := 0 to touched
        invariant forall b :: 0 <= b < writeCycles.Length ==>
                    writeCycles[b] == Min(old(writeCycles[b]) + Hits(start, offset, writeCycles.Length, b), U64_MAX)
      {
        var block := (start + offset) % writeCycles.Length;
        writeCycles[block] := SaturatingAdd(writeCycles[block], 1);
      }
      assert writeCycles[..] == Worn(old(writeCycles[..]), start, touched);
    }
  }
}
