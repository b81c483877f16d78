/** The folder store of a project: saving and deleting flags, the errors of the last save, and the
    folders fetched. The state is copied on every action, but a copy shares the `folders` object
    with the state it was spread from. */
module Folders {
  import opened Js

  datatype Folder = Folder(id: int, name: string, projectId: int)

  /** The errors of a rejected save, by field. */
  type FolderErrors = map<string, seq<string>>

  /** The `folders` object: an object that several states can share. */
  class FolderTable {
    var entries: map<int, Folder>

    constructor (entries: map<int, Folder>)
      ensures this.entries == entries
    {
      this.entries := entries;
    }
  }

  /** What a state holds, with the folders object read through. */
  datatype Snapshot = Snapshot(loading: bool, errors: FolderErrors, loadingFetch: bool, name: Option<string>,
                               folders: Option<map<int, Folder>>, folder: Option<Folder>)

  class FolderState {
    var loading: bool
    var errors: FolderErrors
    var loadingFetch: bool
    var name: Option<string>
    var folders: FolderTable?
    var folder: Option<Folder>

    /** `initialState`: no folders fetched yet. */
    constructor Initial()
      ensures Snap() == Snapshot(false, map[], false, None, None, None)
    {
      loading := false;
      errors := map[];
      loadingFetch := false;
      name := None;
      folders := null;
      folder := None;
    }

    /** `{...state}`: a shallow copy; the folders object is shared, not copied. */
    constructor Copy(state: FolderState)
      ensures loading == state.loading && errors == state.errors && loadingFetch == state.loadingFetch
      ensures name == state.name && folders == state.folders && folder == state.folder
    {
      loading := state.loading;
      errors := state.errors;
      loadingFetch := state.loadingFetch;
      name := state.name;
      folders := state.folders;
      folder := state.folder;
    }

    function Snap(): Snapshot
      reads this, folders
    {
      Snapshot(loading, errors, loadingFetch, name, if folders == null then None else Some(folders.entries), folder)
    }
  }

  datatype Action =
    | CreateFolder(name: string)
    | SavingFolder
    | DeletingFolder
    | SavedFolder
    | DeletedFolder(id: int)
    | NotSavedFolder(errors: FolderErrors)
    | NotDeletedFolder
    | FetchingFolders
    | FetchFolders
    | FetchedFolders(folders: map<int, Folder>)
    | FetchingFolder
    | FetchFolder
    | FetchedFolder(folder: Folder)
    | Other

  /** The reducer on what the states hold; deleting from folders never fetched is a TypeError. */
  function Apply(s: Snapshot, action: Action): (r: Outcome<Snapshot>)
    ensures r.Thrown? <==> action.DeletedFolder? && s.folders.None?
  {
    match action
    case CreateFolder(name) => Done(s.(name := Some(name)))
    case SavingFolder => Done(s.(loading := true))
    case DeletingFolder => Done(s.(loading := true))
    case SavedFolder => Done(s.(errors := map[], loading := false))
    case DeletedFolder(id) =>
      if s.folders.None? then Thrown("TypeError: Cannot convert undefined or null to object")
      else Done(s.(folders := Some(s.folders.value - {id})))
    case NotSavedFolder(errors) => Done(s.(errors := errors, loading := false))
    case NotDeletedFolder => Done(s.(errors := map[], loading := false))
    case FetchingFolders => Done(s.(loadingFetch := true))
    case FetchFolders => Done(s.(folders := Some(map[])))
    case FetchedFolders(folders) => Done(s.(folders := Some(folders), loadingFetch := false))
    case FetchingFolder => Done(s.(loadingFetch := true))
    case FetchFolder => Done(s.(folder := None))
    case FetchedFolder(folder) => Done(s.(folder := Some(folder), loadingFetch := false))
    case Other => Done(s)
  }

  /** SAVING and DELETING raise the loading flag and change nothing else. */
  lemma BusyOnlyRaisesLoading(s: Snapshot)
    ensures Apply(s, SavingFolder) == Apply(s, DeletingFolder)
    ensures Apply(s, SavingFolder).value.loading
    ensures Apply(s, SavingFolder).value.(loading := s.loading) == s
  {
  }

  /** A save ends with the loading flag down: without errors when it succeeds, with the server's
      errors when it does not; a failed delete clears the errors like a save. */
  lemma SaveOutcomes(s: Snapshot, errors: FolderErrors)
    ensures var busy := Apply(s, SavingFolder).value;
      && Apply(busy, SavedFolder).value == s.(loading := false, errors := map[])
      && Apply(busy, NotSavedFolder(errors)).value == s.(loading := false, errors := errors)
      && Apply(Apply(s, DeletingFolder).value, NotDeletedFolder).value == s.(loading := false, errors := map[])
  {
  }

  /** Deleting keeps every folder but the one deleted. */
  lemma DeleteKeepsOthers(s: Snapshot, id: int)
    requires s.folders.Some?
    ensures var r := Apply(s, DeletedFolder(id)).value;
      && r.folders.value.Keys == s.folders.value.Keys - {id}
      && (forall k :: k in r.folders.value ==> r.folders.value[k] == s.folders.value[k])
      && r.(folders := s.folders) == s
  {
  }

  /** A fetch of the list or of one folder raises `loadingFetch` and the answer lowers it, leaving
      the payload in the state. */
  lemma FetchCycles(s: Snapshot, folders: map<int, Folder>, folder: Folder)
    ensures var listed := Apply(Apply(s, FetchingFolders).value, FetchedFolders(folders)).value;
      listed == s.(folders := Some(folders), loadingFetch := false)
    ensures var one := Apply(Apply(s, FetchingFolder).value, FetchedFolder(folder)).value;
      one == s.(folder := Some(folder), loadingFetch := false)
    ensures Apply(s, FetchingFolders).value.loadingFetch && Apply(s, FetchingFolder).value.loadingFetch
  {
  }

  /** `deleteFolder` as written: the copy shares the folders object, so the key is deleted from the
      previous state's folders as well. */
  method DeleteFolderAsWritten(state: FolderState, id: int) returns (r: Outcome<FolderState>)
    modifies state.folders
    ensures old(state.folders) == null ==> r.Thrown?
    ensures state.folders == old(state.folders)
    ensures old(state.folders) != null ==>
      && r.Done? && fresh(r.value) && r.value.folders == state.folders
      && r.value.Snap() == Apply(old(state.Snap()), DeletedFolder(id)).value
      && state.Snap() == r.value.Snap()
  {
    if state.folders == null {
      return Thrown("TypeError: Cannot convert undefined or null to object");
    }
    var newState := new FolderState.Copy(state);
    newState.folders.entries := newState.folders.entries - {id};
    r := Done(newState);
  }

  /** A state holding folder 7 loses it too once a DELETED for 7 has been reduced from it. */
  method PreviousStateLosesFolder() returns (heldBefore: bool, heldAfter: bool)
    ensures heldBefore && !heldAfter
  {
    var previous := new FolderState.Initial();
    var table := new FolderTable(map[7 := Folder(7, "Archive", 1)]);
    previous.folders := table;
    heldBefore := 7 in previous.folders.entries;
    var next := DeleteFolderAsWritten(previous, 7);
    heldAfter := 7 in previous.folders.entries;
  }

  /** `deleteFolder` as intended: the key is deleted from a copy of the folders object, and the
      previous state is left as it was. */
  method DeleteFolder(state: FolderState, id: int) returns (r: Outcome<FolderState>)
    ensures state.folders == null ==> r.Thrown?
    ensures state.folders != null ==>
      && r.Done? && fresh(r.value) && fresh(r.value.folders)
      && r.value.Snap() == Apply(state.Snap(), DeletedFolder(id)).value
  {
    if state.folders == null {
      return Thrown("TypeError: Cannot convert undefined or null to object");
    }
    var newState := new FolderState.Copy(state);
    var table := new FolderTable(state.folders.entries - {id});
    newState.folders := table;
    r := Done(newState);
  }

  /** The reducer: a new state for every known action, built as `Apply` says, the previous state
      untouched; an unknown action returns the state itself. */
  method Reduce(state: FolderState, action: Action) returns (r: Outcome<FolderState>)
    ensures r.Done? <==> Apply(state.Snap(), action).Done?
    ensures r.Done? ==> r.value.Snap() == Apply(state.Snap(), action).value
    ensures action.Other? ==> r == Done(state)
    ensures r.Done? && !action.Other? ==> fresh(r.value)
  {
    if action.Other? {
      return Done(state);
    }
    if action.DeletedFolder? {
      r := DeleteFolder(state, action.id);
      return;
    }
    var s := new FolderState.Copy(state);
    match action {
      case CreateFolder(name) => s.name := Some(name);
      case SavingFolder => s.loading := true;
      case DeletingFolder => s.loading := true;
      case SavedFolder => s.errors := map[]; s.loading := false;
      case NotSavedFolder(errors) => s.errors := errors; s.loading := false;
      case NotDeletedFolder => s.errors := map[]; s.loading := false;
      case FetchingFolders => s.loadingFetch := true;
      case FetchFolders =>
        var table := new FolderTable(map[]);
        s.folders := table;
      case FetchedFolders(folders) =>
        var table := new FolderTable(folders);
        s.folders := table;
        s.loadingFetch := false;
      case FetchingFolder => s.loadingFetch := true;
      case FetchFolder => s.folder := None;
      case FetchedFolder(folder) => s.folder := Some(folder); s.loadingFetch := false;
    }
    r := Done(s);
  }
}
