/** The build history of src/context/BuildHistoryContext.tsx: an in-memory
    list of build records and its persisted copy under one storage key.
    The storage is the field `stored` (`None` while the key is unset), and
    the JSON encoding is taken to round-trip exactly. */
module HistoryLog {
  import opened Wrappers

  /** The three statuses a record may carry. */
  datatype EntryStatus = Completed | Failed | Pending

  /** The status as the string the page compares against. */
  function StatusName(s: EntryStatus): (r: string)
    ensures r in {"Completed", "Failed", "Pending"}
  {
    match s
    case Completed => "Completed"
    case Failed => "Failed"
    case Pending => "Pending"
  }

  /** Distinct statuses have distinct names, and no status is named "All". */
  lemma StatusNameInjective(a: EntryStatus, b: EntryStatus)
    ensures StatusName(a) == StatusName(b) <==> a == b
    ensures StatusName(a) != "All"
  {
  }

  /** One build record; `tag` is optional. */
  datatype BuildEntry = BuildEntry(
    timestamp: string,
    component: string,
    level: int,
    branch: string,
    tag: Option<string>,
    status: EntryStatus,
    duration: string)

  /** The history the provider starts with: the stored list when the key is
      set, and the empty list otherwise. */
  function InitialHistory(stored: Option<seq<BuildEntry>>): seq<BuildEntry>
  {
    stored.GetOr([])
  }

  class BuildHistoryStore {
    /** The in-memory history. */
    var history: seq<BuildEntry>
    /** The value under the storage key. */
    var stored: Option<seq<BuildEntry>>

    /** The persisted copy equals the in-memory one. */
    predicate Synced()
      reads this
    {
      stored == Some(history)
    }

    /** The lazy initial state: read the key, before anything is written. */
    constructor(storage: Option<seq<BuildEntry>>)
      ensures stored == storage
      ensures history == InitialHistory(storage)
      ensures storage.Some? ==> history == storage.value
      ensures storage.None? ==> history == []
    {
      stored := storage;
      history := InitialHistory(storage);
    }

    /** The mount effect: write the in-memory history to the key. */
    method Mount()
      modifies this
      ensures Synced()
      ensures history == old(history)
    {
      stored := Some(history);
    }

    /** `addBuildHistory`: append the entry and write the new list through
        to the key. */
    method Add(entry: BuildEntry)
      modifies this
      ensures history == old(history) + [entry]
      ensures |history| == |old(history)| + 1
      ensures history[..|old(history)|] == old(history)
      ensures Synced()
    {
      var updated := history + [entry];
      stored := Some(updated);
      history := updated;
      assert history[..|old(history)|] == old(history);
    }
  }

  /** The history after appending `entries` one at a time. */
  function AppendAll(history: seq<BuildEntry>, entries: seq<BuildEntry>): seq<BuildEntry>
    decreases |entries|
  {
    if entries == [] then history
    else AppendAll(history + [entries[0]], entries[1..])
  }

  /** Appending one entry at a time only ever extends the history: the
      result is the old history followed by the entries, in order. */
  lemma {:induction false} AppendAllExtends(history: seq<BuildEntry>, entries: seq<BuildEntry>)
    ensures AppendAll(history, entries) == history + entries
    decreases |entries|
  {
    if entries != [] {
      AppendAllExtends(history + [entries[0]], entries[1..]);
      assert history + [entries[0]] + entries[1..] == history + entries;
    }
  }

  /** Starting from the provider's initial state, mounting and then adding
      `entries` leaves the initial history followed by the entries, with the
      stored copy equal to it. */
  method Session(storage: Option<seq<BuildEntry>>, entries: seq<BuildEntry>) returns (log: BuildHistoryStore)
    ensures fresh(log)
    ensures log.history == InitialHistory(storage) + entries
    ensures log.Synced()
  {
    log := new BuildHistoryStore(storage);
    log.Mount();
    var i := 0;
    while i < |entries|
      invariant 0 <= i <= |entries|
      invariant log.history == InitialHistory(storage) + entries[..i]
      invariant log.Synced()
    {
      log.Add(entries[i]);
      assert entries[..i + 1] == entries[..i] + [entries[i]];
      i := i + 1;
    }
    assert entries[..i] == entries;
  }
}
