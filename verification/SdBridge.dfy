/** The SD stream functions of the bridge as the program runs them: a handle table over whole files. */
module SdBridge {
  import opened Prelude
  import opened FileStore
  import opened SdSpec

  class SdStreams {
    const card: Card
    var files: Files
    var handles: map<nat, SdHandle>

    ghost function State(): Sd
      reads this
    {
      Sd(files, handles)
    }

    constructor (card: Card, files: Files)
      ensures this.card == card && State() == Sd(files, map[])
    {
      this.card, this.files, handles := card, files, map[];
    }

    /** `write_file`: checks the file size and the card, then replaces the file. */
    method StoreFile(path: string, data: seq<Byte>) returns (ok: bool)
      modifies this`files
      ensures ok == Stored(card, old(files), path, data).Some?
      ensures files == if ok then Stored(card, old(files), path, data).value else old(files)
      ensures ok ==> card.resolve(path).Some? && files == old(files)[card.resolve(path).value := data]
    {
      hide TotalSize;
      if |data| > FAT32_MAX_FILE_SIZE {
        return false;
      }
      var resolved := card.resolve(path);
      if resolved.None? {
        return false;
      }
      var oldSize := SizeOf(files, resolved.value);
      var used := UsedBytes(files);
      var usedWithoutFile := Max(used - oldSize, 0);
      if Min(usedWithoutFile + |data|, U64_MAX) > card.capacity {
        return false;
      }
      files := files[resolved.value := data];
      return true;
    }

    /** A handle in 1..=255, or 0. */
    method OpenStream(path: string, mode: Byte, granted: bool) returns (handle: nat)
      modifies this
      ensures State() == SdStep(card, old(State()), Open(path, mode, granted))
      ensures handle == (if granted && Opened(card, old(State()), path, mode).Some? then FreeFrom(old(handles), 1)
                         else 0)
    {
      hide Stores, FreeFrom;
      if !granted {
        return 0;
      }
      var free := FreeFrom(handles, 1);
      if free == 0 {
        return 0;
      }
      var position, writable, append := 0, false, false;
      if mode == 0 {
        if Lookup(card, files, path).None? {
          return 0;
        }
      } else if mode == 1 {
        var ok := StoreFile(path, []);
        if !ok {
          return 0;
        }
        writable := true;
      } else if mode == 2 {
        var data := Lookup(card, files, path);
        if data.Some? {
          position := |data.value|;
        } else {
          var ok := StoreFile(path, []);
          if !ok {
            return 0;
          }
        }
        writable, append := true, true;
      } else {
        return 0;
      }
      handles := handles[free := SdHandle(path, position, writable, append)];
      return free;
    }

    /** The number of bytes written, or -1. */
    method WriteStream(handle: nat, data: seq<Byte>, granted: bool) returns (n: int)
      modifies this
      ensures State() == SdStep(card, old(State()), Write(handle, data, granted))
      ensures n == if WriteSucceeds(card, old(State()), Write(handle, data, granted)) then |data| else -1
    {
      hide Stores, Overwrite;
      if |data| > I32_MAX {
        assert handle in handles ==> handles[handle := handles[handle]] == handles;
        return -1;
      }
      if handle !in handles {
        return -1;
      }
      var file := handles[handle];
      assert handles[handle := file] == handles;
      if !file.writable || !granted {
        return -1;
      }
      var contents := Lookup(card, files, file.path);
      if contents.None? {
        return -1;
      }
      if file.append {
        file := file.(position := |contents.value|);
        handles := handles[handle := file];
      }
      if file.position > |contents.value| {
        return -1;
      }
      var end := file.position + |data|;
      var updated := Overwrite(contents.value, file.position, data);
      var ok := StoreFile(file.path, updated);
      if !ok {
        return -1;
      }
      handles := handles[handle := file.(position := end)];
      return |data|;
    }

    /** The bytes read, or nothing at all when the call fails. */
    method ReadStream(handle: nat, maxLen: nat, granted: bool) returns (n: int, bytes: seq<Byte>)
      modifies this`handles
      ensures State() == SdStep(card, old(State()), Read(handle, maxLen, granted))
      ensures bytes == ReadBytes(card, old(State()), Read(handle, maxLen, granted))
      ensures n == if ReadSucceeds(card, old(State()), Read(handle, maxLen, granted)) then |bytes| else -1
    {
      if maxLen > I32_MAX {
        assert handle in handles ==> handles[handle := handles[handle]] == handles;
        return -1, [];
      }
      if handle !in handles {
        return -1, [];
      }
      var file := handles[handle];
      assert handles[handle := file.(position := file.position + 0)] == handles;
      if file.writable || !granted {
        return -1, [];
      }
      var contents := Lookup(card, files, file.path);
      if contents.None? {
        return -1, [];
      }
      var readLen := Min(Max(|contents.value| - file.position, 0), maxLen);
      bytes := if readLen != 0 then contents.value[file.position..file.position + readLen] else [];
      handles := handles[handle := file.(position := file.position + readLen)];
      n := readLen;
    }

    method CloseStream(handle: nat) returns (ok: bool)
      modifies this`handles
      ensures State() == SdStep(card, old(State()), Close(handle))
      ensures ok == (handle in old(handles))
      ensures handles == old(handles) - {handle}
    {
      ok := handle in handles;
      handles := handles - {handle};
    }

    method RemoveFile(path: string, granted: bool) returns (ok: bool)
      modifies this`files
      ensures State() == SdStep(card, old(State()), Remove(path, granted))
      ensures ok == (granted && Lookup(card, old(files), path).Some?)
      ensures files == if ok then old(files) - {card.resolve(path).value} else old(files)
    {
      ok := granted && Lookup(card, files, path).Some?;
      if ok {
        files := files - {card.resolve(path).value};
      }
    }
  }
}
