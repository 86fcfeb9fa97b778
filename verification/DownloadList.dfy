/** The download list's own code: one call at a time, under its lock. */
module DownloadList {
  import opened Sequences
  import opened DownloadsFile
  import opened Downloads

  class List {
    var records: seq<Record>
    var nextId: int
    var revision: int
    var loaded: bool
    var cancels: seq<int>
    var file: string
    // Live objects handed to the list, and handed back by it.
    var adopted: seq<nat>
    var returned: seq<nat>

    ghost function Contents(): State
      reads this
    {
      State(records, nextId, revision, loaded, cancels, Decoded(file), adopted, returned)
    }

    constructor (file: string)
      ensures Contents() == Start(Decoded(file))
    {
      this.file := file;
      records, nextId, revision, loaded, cancels := [], 1, 0, false, [];
      adopted, returned := [], [];
    }

    method EnsureLoaded()
      modifies this`records, this`nextId, this`revision, this`loaded
      ensures Contents() == Loaded(old(Contents()))
    {
      if loaded {
        return;
      }
      loaded := true;
      var history := ReadHistory(file);
      AppendNumbered(history);
      revision := revision + 1;
    }

    method AppendNumbered(history: seq<Record>)
      modifies this`records, this`nextId
      ensures records == old(records) + Numbered(history, old(nextId)) && nextId == old(nextId) + |history|
    {
      ghost var rest := history;
      for i := 0 to |history|
        invariant nextId == old(nextId) + i && rest == history[i..]
        invariant records + Numbered(rest, nextId) == old(records) + Numbered(history, old(nextId))
      {
        var record := history[i].(id := nextId);
        assert rest[0] == history[i];
        rest := rest[1..];
        Shift(records, record, Numbered(rest, nextId + 1));
        records := records + [record];
        nextId := nextId + 1;
      }
    }

    method FindRecord(id: int) returns (at: int)
      ensures at == Find(records, id)
    {
      for i := 0 to |records|
        invariant Find(records, id) == if Find(records[i..], id) < 0 then -1 else i + Find(records[i..], id)
      {
        assert records[i..][0] == records[i] && records[i..][1..] == records[i + 1..];
        if records[i].id == id {
          return i;
        }
      }
      return -1;
    }

    method Save()
      modifies this`file
      ensures Contents() == Saved(old(Contents()))
    {
      file := WriteHistory(records);
      DecodeUndoesEncode(records);
    }

    method Add(url: string, download: nat, fileName: string) returns (id: int)
      modifies this
      ensures Contents() == Added(Loaded(old(Contents())), url, download, fileName)
      ensures id == Loaded(old(Contents())).nextId
    {
      EnsureLoaded();
      id := nextId;
      nextId := nextId + 1;
      records := [Record(id, Starting, download, url, fileName, "", "", "", 0, -1, 0)] + records;
      if download != 0 {
        adopted := adopted + [download];
      }
      revision := revision + 1;
    }

    method SetUrl(id: int, url: string)
      modifies this`records, this`revision
      ensures Contents() == WithUrl(old(Contents()), id, url)
    {
      if url == [] {
        return;
      }
      var at := FindRecord(id);
      if at < 0 || records[at].url == url {
        return;
      }
      records := records[at := records[at].(url := url)];
      revision := revision + 1;
    }

    method SetDestination(id: int, fileName: string, path: string, mimeType: string)
      modifies this`records, this`revision
      ensures Contents() == WithDestination(old(Contents()), id, fileName, path, mimeType)
    {
      var at := FindRecord(id);
      if at < 0 {
        return;
      }
      var record := records[at].(fileName := fileName, path := path, mimeType := mimeType);
      if record.progress.Starting? {
        record := record.(progress := Running);
      }
      records := records[at := record];
      revision := revision + 1;
    }

    method SetProgress(id: int, received: int, total: int)
      modifies this`records, this`revision
      ensures Contents() == WithProgress(old(Contents()), id, received, total)
    {
      var at := FindRecord(id);
      if at < 0 || IsTerminal(records[at]) {
        return;
      }
      var record := records[at].(received := received, total := total);
      if record.progress.Starting? {
        record := record.(progress := Running);
      }
      records := records[at := record];
      revision := revision + 1;
    }

    /** Ends a download and hands back the live object it held, if it held one. */
    method Finish(id: int, progress: Progress, error: string, ticks: nat) returns (stale: nat)
      requires progress.Finished? || progress.Failed? || progress.Cancelled?
      modifies this
      ensures Contents() == Next(old(Contents()), Step.Finish(id, progress, error, ticks))
      ensures returned == old(returned) + (if stale == 0 then [] else [stale])
    {
      EnsureLoaded();
      stale := 0;
      var at := FindRecord(id);
      if at < 0 || IsTerminal(records[at]) {
        return;
      }
      stale := EndRecord(at, progress, error, ticks);
      Save();
    }

    method EndRecord(at: nat, progress: Progress, error: string, ticks: nat) returns (stale: nat)
      requires at < |records|
      modifies this`records, this`returned, this`revision
      ensures stale == old(records)[at].download
      ensures Contents() == Changed(old(Contents()), at, Ended(old(records)[at], progress, error, ticks))
                            .(returned := old(returned) + Held(old(records)[at]))
    {
      var record := records[at].(progress := progress, error := error, completedAt := ticks);
      if record.total < 0 && progress.Finished? {
        record := record.(total := record.received);
      }
      stale := record.download;
      records := records[at := record.(download := 0)];
      if stale != 0 {
        returned := returned + [stale];
      }
      revision := revision + 1;
    }

    /** Hands back every live object. */
    method TakeLiveDownloads() returns (live: seq<nat>)
      modifies this
      ensures Contents() == LiveTaken(old(Contents())) && live == LiveOf(old(records))
    {
      live := LetAllGo();
      returned := returned + live;
      cancels := [];
      revision := revision + 1;
      Save();
    }

    method LetAllGo() returns (live: seq<nat>)
      modifies this`records
      ensures records == LetGo(old(records)) && live == LiveOf(old(records))
    {
      live := [];
      ghost var done, rest := [], records;
      for i := 0 to |records|
        invariant records == done + rest && |done| == i && |records| == |old(records)|
        invariant live + LiveOf(rest) == LiveOf(old(records))
        invariant done + LetGo(rest) == LetGo(old(records))
      {
        var record := records[i];
        assert rest[0] == record;
        Shift(done, record.(download := 0), LetGo(rest[1..]));
        Replace(done, record.(download := 0), rest);
        assert live + (Held(record) + LiveOf(rest[1..])) == (live + Held(record)) + LiveOf(rest[1..]);
        done, rest := done + [record.(download := 0)], rest[1..];
        live := LetOneGo(i, live);
      }
    }

    method LetOneGo(at: nat, live: seq<nat>) returns (more: seq<nat>)
      requires at < |records|
      modifies this`records
      ensures records == old(records)[at := old(records)[at].(download := 0)] && more == live + Held(old(records)[at])
    {
      if records[at].download == 0 {
        return live;
      }
      more := live + [records[at].download];
      records := records[at := records[at].(download := 0)];
    }

    method Remove(id: int)
      modifies this
      ensures Contents() == Removed(Loaded(old(Contents())), id)
    {
      EnsureLoaded();
      var at := FindRecord(id);
      if at < 0 || !IsTerminal(records[at]) {
        return;
      }
      records := records[..at] + records[at + 1..];
      revision := revision + 1;
      Save();
    }

    method ClearTerminal()
      modifies this
      ensures Contents() == Cleared(Loaded(old(Contents())))
    {
      EnsureLoaded();
      var kept := KeepUnfinished();
      if |kept| == |records| {
        return;
      }
      records := kept;
      revision := revision + 1;
      Save();
    }

    method KeepUnfinished() returns (kept: seq<Record>)
      ensures kept == Unfinished(records)
    {
      kept := [];
      ghost var rest := records;
      for i := 0 to |records|
        invariant rest == records[i..] && kept + Unfinished(rest) == Unfinished(records)
      {
        assert rest == [records[i]] + rest[1..];
        rest := rest[1..];
        kept := WithUnfinished(kept, records[i], rest);
      }
      assert kept + [] == kept;
    }

    static method WithUnfinished(kept: seq<Record>, record: Record, ghost later: seq<Record>)
      returns (more: seq<Record>)
      ensures more + Unfinished(later) == kept + Unfinished([record] + later)
    {
      assert ([record] + later)[1..] == later;
      Shift(kept, record, Unfinished(later));
      more := if IsTerminal(record) then kept else kept + [record];
    }

    method QueueCancel(id: int)
      modifies this
      ensures Contents() == CancelQueued(Loaded(old(Contents())), id)
    {
      EnsureLoaded();
      var at := FindRecord(id);
      if at < 0 || IsTerminal(records[at]) {
        return;
      }
      for i := 0 to |cancels|
        invariant Contents() == Loaded(old(Contents())) && forall j :: 0 <= j < i ==> cancels[j] != id
      {
        if cancels[i] == id {
          return;
        }
      }
      cancels := cancels + [id];
    }

    method TakeCancel() returns (found: bool, id: int)
      modifies this`cancels
      ensures Contents() == Next(old(Contents()), NextCancel)
      ensures found == (old(cancels) != []) && (found ==> id == old(cancels)[0])
    {
      if cancels == [] {
        return false, 0;
      }
      found, id := true, cancels[0];
      cancels := cancels[1..];
    }
  }
}
