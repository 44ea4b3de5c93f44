/** The per-folder resume state of the sync (`DatabaseSyncStateRepository`):
    a JSON document on disk holding, under "folders", one entry per Drive
    folder with the last processed file, the continuation token and the
    time of the write. */
module SyncState {
  import opened Text

  /** `DatabaseSyncState`: where a folder's sync stopped. */
  datatype State = State(lastProcessed: Option<string>, continuation: Option<string>)

  /** The state of a folder with no entry: nothing processed, nothing pending. */
  const Blank: State := State(None, None)

  /** One entry under "folders": the state and its `updated_at` text. */
  datatype Entry = Entry(state: State, updatedAt: string)

  /** The state file as the repository finds it: absent, not valid JSON, or
      a document whose "folders" object maps folder ids to entries (a
      document without "folders" reads as one with no entries). */
  datatype StateFile = Missing | Corrupt | Document(folders: map<string, Entry>)

  /** `load(folder_id)` */
  function LoadFrom(file: StateFile, folder: string): (s: State)
    ensures !file.Document? ==> s == Blank
    ensures file.Document? && folder !in file.folders ==> s == Blank
  {
    match file
    case Missing => Blank
    case Corrupt => Blank
    case Document(folders) => if folder in folders then folders[folder].state else Blank
  }

  /** `_write_state(folder_id, state)`, with `now` the `updated_at` text: a
      corrupt or missing file is replaced by a document that starts from
      no folders at all. */
  function Written(file: StateFile, folder: string, s: State, now: string): (r: StateFile)
    ensures r.Document? && folder in r.folders && r.folders[folder] == Entry(s, now)
  {
    var folders := if file.Document? then file.folders else map[];
    Document(folders[folder := Entry(s, now)])
  }

  /** `clear(folder_id)`: a corrupt file is deleted; a document loses the
      folder's entry and is deleted when no folder is left; otherwise
      nothing changes. */
  function Cleared(file: StateFile, folder: string): (r: StateFile)
    ensures r.Document? ==> folder !in r.folders
  {
    match file
    case Missing => Missing
    case Corrupt => Missing
    case Document(folders) =>
      if folder !in folders then file
      else if folders.Keys == {folder} then Missing
      else Document(folders - {folder})
  }

  /** The repository: `file` is the content of its JSON file. */
  class StateRepository {
    var file: StateFile

    constructor(initial: StateFile)
      ensures file == initial
    {
      file := initial;
    }

    function Load(folder: string): State
      reads this
    {
      LoadFrom(file, folder)
    }

    /** `mark_processed(folder_id, file_id)` */
    method MarkProcessed(folder: string, fileId: string, now: string)
      modifies this
      ensures file == Written(old(file), folder, State(Some(fileId), None), now)
      ensures Load(folder) == State(Some(fileId), None)
    {
      file := Written(file, folder, State(Some(fileId), None), now);
      LoadAfterWrite(old(file), folder, State(Some(fileId), None), now);
    }

    /** `mark_interrupted(folder_id, file_id)` */
    method MarkInterrupted(folder: string, fileId: string, now: string)
      modifies this
      ensures file == Written(old(file), folder, State(None, Some(fileId)), now)
      ensures Load(folder) == State(None, Some(fileId))
    {
      file := Written(file, folder, State(None, Some(fileId)), now);
      LoadAfterWrite(old(file), folder, State(None, Some(fileId)), now);
    }

    /** `clear(folder_id)` */
    method Clear(folder: string)
      modifies this
      ensures file == Cleared(old(file), folder)
      ensures Load(folder) == Blank
    {
      file := Cleared(file, folder);
      LoadAfterClear(old(file), folder);
    }
  }

  /** A folder reads back the state last written for it. */
  lemma LoadAfterWrite(file: StateFile, folder: string, s: State, now: string)
    ensures LoadFrom(Written(file, folder, s, now), folder) == s
  {
  }

  /** Writing one folder leaves what every other folder loads unchanged; on
      a corrupt file those folders already loaded as blank. */
  lemma WriteKeepsOthers(file: StateFile, folder: string, other: string, s: State, now: string)
    requires other != folder
    ensures LoadFrom(Written(file, folder, s, now), other) == LoadFrom(file, other)
  {
  }

  /** On a corrupt file a write keeps no entry but the written one. */
  lemma WriteOnCorruptDropsOthers(folder: string, s: State, now: string)
    ensures Written(Corrupt, folder, s, now).folders.Keys == {folder}
  {
  }

  /** A cleared folder loads as blank. */
  lemma LoadAfterClear(file: StateFile, folder: string)
    ensures LoadFrom(Cleared(file, folder), folder) == Blank
  {
  }

  /** Clearing one folder leaves what every other folder loads unchanged. */
  lemma ClearKeepsOthers(file: StateFile, folder: string, other: string)
    requires other != folder
    ensures LoadFrom(Cleared(file, folder), other) == LoadFrom(file, other)
  {
    if file.Document? && folder in file.folders && file.folders.Keys == {folder} {
      assert other !in file.folders;
    }
  }

  /** Clearing twice is clearing once. */
  lemma ClearIdempotent(file: StateFile, folder: string)
    ensures Cleared(Cleared(file, folder), folder) == Cleared(file, folder)
  {
  }

  /** Clearing a folder that has no entry leaves a document as it is. */
  lemma ClearAbsentIsNoOp(folders: map<string, Entry>, folder: string)
    requires folder !in folders
    ensures Cleared(Document(folders), folder) == Document(folders)
  {
  }
}
