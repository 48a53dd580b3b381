/** Files as a map from resolved name to contents, and how much room they take. */
module FileStore {
  import opened Prelude

  type Files = map<string, seq<Byte>>

  ghost function TotalSize(files: Files): nat {
    if files == map[] then 0
    else
      var name :| name in files;
      |files[name]| + TotalSize(files - {name})
  }

  function SizeOf(files: Files, name: string): nat {
    if name in files then |files[name]| else 0
  }

  /** Any file can be taken out of the sum first. */
  lemma {:induction false} TotalWithout(files: Files, name: string)
    requires name in files
    ensures TotalSize(files) == |files[name]| + TotalSize(files - {name})
    decreases |files|
  {
    var first :| first in files && TotalSize(files) == |files[first]| + TotalSize(files - {first});
    if first != name {
      var rest := files - {first};
      TotalWithout(rest, name);
      TotalWithout(files - {name}, first);
      assert rest - {name} == (files - {name}) - {first};
    }
  }

  lemma EmptyTotal()
    ensures TotalSize(map[]) == 0
  {}

  lemma RemoveAbsent(files: Files, name: string)
    requires name !in files
    ensures files - {name} == files
  {}

  /** Writing a file replaces its old size by its new one. */
  lemma TotalAfterWrite(files: Files, name: string, data: seq<Byte>)
    ensures TotalSize(files[name := data]) == TotalSize(files) - SizeOf(files, name) + |data|
    ensures SizeOf(files, name) <= TotalSize(files)
  {
    TotalWithout(files[name := data], name);
    assert files[name := data] - {name} == files - {name};
    if name in files {
      TotalWithout(files, name);
    } else {
      RemoveAbsent(files, name);
    }
  }

  lemma TotalAfterDelete(files: Files, name: string)
    ensures TotalSize(files - {name}) == TotalSize(files) - SizeOf(files, name)
  {
    if name in files {
      TotalWithout(files, name);
    } else {
      RemoveAbsent(files, name);
    }
  }

  /** The directory walk that adds up file sizes, in any order, saturating as 64-bit sums do. */
  method UsedBytes(files: Files) returns (used: U64)
    ensures used == Min(TotalSize(files), U64_MAX)
  {
    hide TotalSize;
    EmptyTotal();
    used := 0;
    var waiting := files;
    while waiting != map[]
      invariant TotalSize(waiting) <= TotalSize(files)
      invariant used == Min(TotalSize(files) - TotalSize(waiting), U64_MAX)
      decreases waiting.Keys
    {
      var name :| name in waiting;
      TotalWithout(waiting, name);
      used := Min(used + |waiting[name]|, U64_MAX);
      waiting := waiting - {name};
    }
  }
}
