/**
 * The workspace state held by the React provider: a reducer over the current workspace, the
 * workspace list, the members and activities on show, a loading flag and an error message, and
 * the lookup `switchWorkspace` performs before dispatching.
 */
module WorkspaceContext {
  import opened Wrappers
  import opened LibraryTypes
  import opened Seqs

  datatype WorkspaceState = WorkspaceState(
    currentWorkspace: Option<Workspace>,
    workspaces: seq<Workspace>,
    members: seq<WorkspaceMember>,
    activities: seq<WorkspaceActivity>,
    isLoading: bool,
    error: Option<string>)

  /** The actions the reducer knows, and `Unknown` for any other `type` tag. */
  datatype WorkspaceAction =
    | SetLoading(loading: bool)
    | SetError(message: Option<string>)
    | SetWorkspaces(list: seq<Workspace>)
    | SetCurrentWorkspace(current: Option<Workspace>)
    | SetMembers(memberList: seq<WorkspaceMember>)
    | SetActivities(activityList: seq<WorkspaceActivity>)
    | AddWorkspace(added: Workspace)
    | UpdateWorkspace(updated: Workspace)
    | RemoveWorkspace(removedId: string)
    | Unknown(tag: string)

  /** The state before anything is loaded. */
  const InitialState := WorkspaceState(None, [], [], [], false, None)

  /** The message `switchWorkspace` reports when the id is not listed. */
  const SwitchFailed := "Failed to switch workspace"

  /** The current workspace, when there is one, is one of the listed workspaces. */
  ghost predicate CurrentListed(s: WorkspaceState)
  {
    s.currentWorkspace.Some? ==> s.currentWorkspace.value in s.workspaces
  }

  /** `state.workspaces.map(w => w.id === u.id ? u : w)`. */
  function ReplaceById(ws: seq<Workspace>, u: Workspace): (r: seq<Workspace>)
    ensures |r| == |ws|
    ensures forall i :: 0 <= i < |ws| ==> r[i] == if ws[i].id == u.id then u else ws[i]
  {
    Map(ws, (w: Workspace) => if w.id == u.id then u else w)
  }

  /** `workspaceReducer`. Each action changes only the fields it names. */
  function Reduce(s: WorkspaceState, action: WorkspaceAction): (r: WorkspaceState)
    ensures !action.SetMembers? ==> r.members == s.members
    ensures !action.SetActivities? ==> r.activities == s.activities
    ensures !action.SetError? ==> r.error == s.error
    ensures !(action.SetWorkspaces? || action.AddWorkspace? || action.UpdateWorkspace? || action.RemoveWorkspace?) ==>
              r.workspaces == s.workspaces
    ensures !(action.SetCurrentWorkspace? || action.AddWorkspace? || action.UpdateWorkspace? || action.RemoveWorkspace?) ==>
              r.currentWorkspace == s.currentWorkspace
    ensures action.Unknown? ==> r == s
  {
    match action
    case SetLoading(b) => s.(isLoading := b)
    case SetError(e) => s.(error := e, isLoading := false)
    case SetWorkspaces(ws) => s.(workspaces := ws, isLoading := false)
    case SetCurrentWorkspace(c) => s.(currentWorkspace := c, isLoading := false)
    case SetMembers(ms) => s.(members := ms)
    case SetActivities(acts) => s.(activities := acts)
    case AddWorkspace(w) => s.(workspaces := s.workspaces + [w], currentWorkspace := Some(w), isLoading := false)
    case UpdateWorkspace(u) =>
      s.(workspaces := ReplaceById(s.workspaces, u),
         currentWorkspace := if s.currentWorkspace.Some? && s.currentWorkspace.value.id == u.id then Some(u) else s.currentWorkspace,
         isLoading := false)
    case RemoveWorkspace(id) =>
      s.(workspaces := Filter(s.workspaces, (w: Workspace) => w.id != id),
         currentWorkspace := if s.currentWorkspace.Some? && s.currentWorkspace.value.id == id then None else s.currentWorkspace)
    case Unknown(_) => s
  }

  /**
   * The loading flag after each action: `SetLoading` sets it; errors, list loads, selections, and
   * adding or updating a workspace clear it; the other actions leave it alone.
   */
  lemma LoadingFlag(s: WorkspaceState, action: WorkspaceAction)
    ensures action.SetLoading? ==> Reduce(s, action).isLoading == action.loading
    ensures (action.SetError? || action.SetWorkspaces? || action.SetCurrentWorkspace?
             || action.AddWorkspace? || action.UpdateWorkspace?) ==> !Reduce(s, action).isLoading
    ensures (action.SetMembers? || action.SetActivities? || action.RemoveWorkspace? || action.Unknown?) ==>
              Reduce(s, action).isLoading == s.isLoading
  {
  }

  /**
   * Each setter stores its payload in its own field and changes nothing else, apart from clearing
   * the loading flag for errors, list loads and selections.
   */
  lemma SettersAreLocal(s: WorkspaceState, ms: seq<WorkspaceMember>, acts: seq<WorkspaceActivity>, b: bool,
                        e: Option<string>, ws: seq<Workspace>, c: Option<Workspace>)
    ensures Reduce(s, SetMembers(ms)) == s.(members := ms)
    ensures Reduce(s, SetActivities(acts)) == s.(activities := acts)
    ensures Reduce(s, SetLoading(b)) == s.(isLoading := b)
    ensures Reduce(s, SetError(e)) == s.(error := e, isLoading := false)
    ensures Reduce(s, SetWorkspaces(ws)) == s.(workspaces := ws, isLoading := false)
    ensures Reduce(s, SetCurrentWorkspace(c)) == s.(currentWorkspace := c, isLoading := false)
    ensures Reduce(s, SetError(Some(SwitchFailed))).error == Some(SwitchFailed)
  {
  }

  /** Adding a workspace appends it and selects it. */
  lemma AddSelects(s: WorkspaceState, w: Workspace)
    ensures var r := Reduce(s, AddWorkspace(w));
      r.workspaces == s.workspaces + [w] && r.currentWorkspace == Some(w) && CurrentListed(r)
  {
    assert (s.workspaces + [w])[|s.workspaces|] == w;
  }

  /** Updating keeps the list length, replaces every entry with the payload's id, and the selection only when its id matches. */
  lemma UpdateReplacesById(s: WorkspaceState, u: Workspace)
    ensures var r := Reduce(s, UpdateWorkspace(u));
      && |r.workspaces| == |s.workspaces|
      && (forall i :: 0 <= i < |s.workspaces| ==> (s.workspaces[i].id == u.id ==> r.workspaces[i] == u)
                                                  && (s.workspaces[i].id != u.id ==> r.workspaces[i] == s.workspaces[i]))
      && (s.currentWorkspace.Some? && s.currentWorkspace.value.id == u.id ==> r.currentWorkspace == Some(u))
      && (s.currentWorkspace.None? || s.currentWorkspace.value.id != u.id ==> r.currentWorkspace == s.currentWorkspace)
  {
  }

  /** Removing drops every entry with the id, and clears the selection exactly when its id matches. */
  lemma RemoveDropsId(s: WorkspaceState, id: string)
    ensures var r := Reduce(s, RemoveWorkspace(id));
      && (forall w :: w in r.workspaces <==> w in s.workspaces && w.id != id)
      && IsSubsequence(r.workspaces, s.workspaces)
      && (r.currentWorkspace.None? <==> s.currentWorkspace.None? || s.currentWorkspace.value.id == id)
      && (s.currentWorkspace.Some? && s.currentWorkspace.value.id != id ==> r.currentWorkspace == s.currentWorkspace)
  {
    FilterIsSubsequence(s.workspaces, (w: Workspace) => w.id != id);
  }

  /** Every action except loading a new list or a new selection keeps the selection among the listed workspaces. */
  lemma ReduceKeepsCurrentListed(s: WorkspaceState, action: WorkspaceAction)
    requires CurrentListed(s)
    requires !action.SetWorkspaces? && !action.SetCurrentWorkspace?
    ensures CurrentListed(Reduce(s, action))
  {
    var r := Reduce(s, action);
    match action
    case AddWorkspace(w) =>
      AddSelects(s, w);
    case UpdateWorkspace(u) =>
      if s.currentWorkspace.Some? {
        var c := s.currentWorkspace.value;
        var i :| 0 <= i < |s.workspaces| && s.workspaces[i] == c;
        assert r.workspaces[i] in r.workspaces;
      }
    case RemoveWorkspace(id) =>
    case _ =>
  }

  /**
   * `switchWorkspace`: raises the loading flag, then selects the first listed workspace with the
   * id, or records the failure message when none is listed.
   */
  function SwitchWorkspace(s: WorkspaceState, id: string): (r: WorkspaceState)
    ensures !r.isLoading
    ensures r.workspaces == s.workspaces && r.members == s.members && r.activities == s.activities
    ensures (exists i :: 0 <= i < |s.workspaces| && s.workspaces[i].id == id) ==>
              r.currentWorkspace.Some? && r.currentWorkspace.value in s.workspaces && r.currentWorkspace.value.id == id
              && r.error == s.error
    ensures (forall i :: 0 <= i < |s.workspaces| ==> s.workspaces[i].id != id) ==>
              r.currentWorkspace == s.currentWorkspace && r.error == Some(SwitchFailed)
    ensures CurrentListed(s) ==> CurrentListed(r)
    ensures r.currentWorkspace != s.currentWorkspace ==>
              exists i: nat :: IsFirst(s.workspaces, (w: Workspace) => w.id == id, i) && r.currentWorkspace == Some(s.workspaces[i])
    ensures forall i: nat :: IsFirst(s.workspaces, (w: Workspace) => w.id == id, i) ==> r.currentWorkspace == Some(s.workspaces[i])
  {
    var loading := Reduce(s, SetLoading(true));
    match FindIndex(loading.workspaces, (w: Workspace) => w.id == id)
    case Some(i) =>
      assert IsFirst(s.workspaces, (w: Workspace) => w.id == id, i);
      Reduce(loading, SetCurrentWorkspace(Some(loading.workspaces[i])))
    case None => Reduce(loading, SetError(Some(SwitchFailed)))
  }
}
