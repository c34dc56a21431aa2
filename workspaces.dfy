/**
 * Workspaces, their members, activity logs and invitations, kept under four storage keys. Each
 * operation reads a whole list, changes it in memory and writes it back; `WorkspaceStore` keeps
 * the four lists as fields, and `WorkspaceData` is the same state as a value. An absent key
 * reads as the empty list. Ids, tokens and clock readings are parameters.
 */
module Workspaces {
  import opened Wrappers
  import opened LibraryTypes
  import opened Seqs

  /** The four lists, as one value. */
  datatype WorkspaceData = WorkspaceData(
    workspaces: seq<Workspace>,
    members: seq<WorkspaceMember>,
    activities: seq<WorkspaceActivity>,
    invitations: seq<WorkspaceInvitation>)

  /** Every member, activity and invitation belongs to a stored workspace. */
  ghost predicate ReferencesIntact(d: WorkspaceData)
  {
    && (forall m :: m in d.members ==> exists w :: w in d.workspaces && w.id == m.workspaceId)
    && (forall a :: a in d.activities ==> exists w :: w in d.workspaces && w.id == a.workspaceId)
    && (forall v :: v in d.invitations ==> exists w :: w in d.workspaces && w.id == v.workspaceId)
  }

  /* ---------------------------------------------------------------------------------------- */
  /* Workspaces                                                                               */
  /* ---------------------------------------------------------------------------------------- */

  /** `getWorkspace`: the first workspace with the id, or `None`. */
  function FindWorkspace(ws: seq<Workspace>, id: string): (r: Option<Workspace>)
    ensures r.None? <==> forall i :: 0 <= i < |ws| ==> ws[i].id != id
    ensures r.Some? ==> exists i: nat :: IsFirst(ws, (w: Workspace) => w.id == id, i) && r.value == ws[i]
  {
    match FindIndex(ws, (w: Workspace) => w.id == id)
    case None => None
    case Some(i) =>
      assert IsFirst(ws, (w: Workspace) => w.id == id, i);
      Some(ws[i])
  }

  /** The input of `createWorkspace`: a workspace without its id and time stamps. */
  datatype WorkspaceDraft = WorkspaceDraft(
    name: string,
    description: Option<string>,
    ownerId: string,
    members: seq<WorkspaceMember>,
    settings: WorkspaceSettings,
    isPublic: bool)

  /** The workspace `createWorkspace` stores: the draft with the fresh id, created and updated now. */
  function NewWorkspace(draft: WorkspaceDraft, id: string, now: Instant): (w: Workspace)
    ensures w.id == id && w.createdAt == now && w.updatedAt == now
    ensures w.name == draft.name && w.description == draft.description && w.ownerId == draft.ownerId
    ensures w.members == draft.members && w.settings == draft.settings && w.isPublic == draft.isPublic
  {
    Workspace(id, draft.name, draft.description, draft.ownerId, draft.members, draft.settings, now, now, draft.isPublic)
  }

  /** A `Partial<Workspace>`; `description` takes an inner `Option` so that it can be cleared. */
  datatype WorkspacePatch = WorkspacePatch(
    id: Option<string>,
    name: Option<string>,
    description: Option<Option<string>>,
    ownerId: Option<string>,
    members: Option<seq<WorkspaceMember>>,
    settings: Option<WorkspaceSettings>,
    createdAt: Option<Instant>,
    updatedAt: Option<Instant>,
    isPublic: Option<bool>)

  /** `{ ...w, ...patch, updatedAt: now }`: the patch's fields win, and the update time wins over the patch. */
  function ApplyWorkspacePatch(w: Workspace, p: WorkspacePatch, now: Instant): (r: Workspace)
    ensures r.updatedAt == now
    ensures p.id.None? ==> r.id == w.id
    ensures p.createdAt.None? ==> r.createdAt == w.createdAt
  {
    Workspace(p.id.GetOr(w.id), p.name.GetOr(w.name), p.description.GetOr(w.description),
              p.ownerId.GetOr(w.ownerId), p.members.GetOr(w.members), p.settings.GetOr(w.settings),
              p.createdAt.GetOr(w.createdAt), now, p.isPublic.GetOr(w.isPublic))
  }

  /** The patch that sets nothing. */
  const NoWorkspaceChange := WorkspacePatch(None, None, None, None, None, None, None, None, None)

  /** An empty update only touches the update time. */
  lemma EmptyWorkspacePatchTouches(w: Workspace, now: Instant)
    ensures ApplyWorkspacePatch(w, NoWorkspaceChange, now) == w.(updatedAt := now)
  {
  }

  /** A rename changes the name and the update time and nothing else. */
  lemma RenameTouchesOnlyName(w: Workspace, name: string, now: Instant)
    ensures ApplyWorkspacePatch(w, NoWorkspaceChange.(name := Some(name)), now) == w.(name := name, updatedAt := now)
  {
  }

  /** `updateWorkspace`: patches the first workspace with the id; `None` (nothing written) when there is none. */
  function UpdatedWorkspaces(ws: seq<Workspace>, id: string, p: WorkspacePatch, now: Instant): (r: Option<seq<Workspace>>)
    ensures r.None? <==> FindWorkspace(ws, id).None?
    ensures r.Some? ==> |r.value| == |ws|
    ensures r.Some? ==> exists i: nat :: IsFirst(ws, (w: Workspace) => w.id == id, i)
                          && r.value[i] == ApplyWorkspacePatch(ws[i], p, now)
                          && forall j :: 0 <= j < |ws| && j != i ==> r.value[j] == ws[j]
  {
    ReplaceFirst(ws, (w: Workspace) => w.id == id, (w: Workspace) => ApplyWorkspacePatch(w, p, now))
  }

  /** A workspace stored under a fresh id is what `getWorkspace` then finds under that id. */
  lemma {:induction false} CreateThenFind(ws: seq<Workspace>, draft: WorkspaceDraft, id: string, now: Instant)
    requires FindWorkspace(ws, id).None?
    ensures FindWorkspace(ws + [NewWorkspace(draft, id, now)], id) == Some(NewWorkspace(draft, id, now))
  {
    var grown := ws + [NewWorkspace(draft, id, now)];
    var r := FindWorkspace(grown, id);
    assert grown[|ws|].id == id;
    var i: nat :| IsFirst(grown, (w: Workspace) => w.id == id, i) && r.value == grown[i];
    assert i == |ws|;
  }

  /**
   * `deleteWorkspace`: drops the workspaces with the id and then every member, activity and
   * invitation of that id; `None` (nothing written) when no workspace has the id.
   */
  function DeleteWorkspaceData(d: WorkspaceData, id: string): (r: Option<WorkspaceData>)
    ensures r.None? <==> FindWorkspace(d.workspaces, id).None?
    ensures r.Some? ==> (forall w :: w in r.value.workspaces <==> w in d.workspaces && w.id != id)
    ensures r.Some? ==> (forall m :: m in r.value.members <==> m in d.members && m.workspaceId != id)
    ensures r.Some? ==> (forall a :: a in r.value.activities <==> a in d.activities && a.workspaceId != id)
    ensures r.Some? ==> (forall v :: v in r.value.invitations <==> v in d.invitations && v.workspaceId != id)
    ensures r.Some? ==> r.value.workspaces == Filter(d.workspaces, (w: Workspace) => w.id != id)
                        && |r.value.workspaces| < |d.workspaces|
    ensures r.Some? ==> r.value.members == Filter(d.members, (m: WorkspaceMember) => m.workspaceId != id)
    ensures r.Some? ==> r.value.activities == Filter(d.activities, (a: WorkspaceActivity) => a.workspaceId != id)
    ensures r.Some? ==> r.value.invitations == Filter(d.invitations, (v: WorkspaceInvitation) => v.workspaceId != id)
  {
    match KeepOnly(d.workspaces, (w: Workspace) => w.id != id)
    case None => None
    case Some(ws) =>
      Some(WorkspaceData(
        ws,
        Filter(d.members, (m: WorkspaceMember) => m.workspaceId != id),
        Filter(d.activities, (a: WorkspaceActivity) => a.workspaceId != id),
        Filter(d.invitations, (v: WorkspaceInvitation) => v.workspaceId != id)))
  }

  /** Deleting a workspace keeps every remaining member, activity and invitation attached to a stored workspace. */
  lemma DeleteKeepsReferences(d: WorkspaceData, id: string)
    requires ReferencesIntact(d)
    requires DeleteWorkspaceData(d, id).Some?
    ensures ReferencesIntact(DeleteWorkspaceData(d, id).value)
  {
    var r := DeleteWorkspaceData(d, id).value;
    forall m | m in r.members ensures exists w :: w in r.workspaces && w.id == m.workspaceId {
      var w :| w in d.workspaces && w.id == m.workspaceId;
      assert w in r.workspaces;
    }
    forall a | a in r.activities ensures exists w :: w in r.workspaces && w.id == a.workspaceId {
      var w :| w in d.workspaces && w.id == a.workspaceId;
      assert w in r.workspaces;
    }
    forall v | v in r.invitations ensures exists w :: w in r.workspaces && w.id == v.workspaceId {
      var w :| w in d.workspaces && w.id == v.workspaceId;
      assert w in r.workspaces;
    }
  }

  /** After a deletion nothing refers to the id any more, so deleting it again reports `false`. */
  lemma DeleteTwiceFails(d: WorkspaceData, id: string)
    requires DeleteWorkspaceData(d, id).Some?
    ensures DeleteWorkspaceData(DeleteWorkspaceData(d, id).value, id).None?
  {
    var r := DeleteWorkspaceData(d, id).value;
    forall i | 0 <= i < |r.workspaces| ensures r.workspaces[i].id != id {
      assert r.workspaces[i] in r.workspaces;
    }
  }

  /* ---------------------------------------------------------------------------------------- */
  /* Members                                                                                  */
  /* ---------------------------------------------------------------------------------------- */

  /** The membership row is that of `userId` in `workspaceId`. */
  predicate IsMembership(m: WorkspaceMember, workspaceId: string, userId: string)
  {
    m.workspaceId == workspaceId && m.userId == userId
  }

  /** `getWorkspaceMembers`: the rows of one workspace, in stored order. */
  function WorkspaceMembers(ms: seq<WorkspaceMember>, workspaceId: string): (r: seq<WorkspaceMember>)
    ensures forall m :: m in r <==> m in ms && m.workspaceId == workspaceId
    ensures IsSubsequence(r, ms)
    ensures r == Filter(ms, (m: WorkspaceMember) => m.workspaceId == workspaceId)
  {
    var keep := (m: WorkspaceMember) => m.workspaceId == workspaceId;
    FilterIsSubsequence(ms, keep);
    Filter(ms, keep)
  }

  /** A `Partial<WorkspaceMember>`. */
  datatype MemberPatch = MemberPatch(
    userId: Option<string>,
    workspaceId: Option<string>,
    role: Option<WorkspaceRole>,
    joinedAt: Option<Instant>,
    invitedBy: Option<Option<string>>,
    permissions: Option<seq<WorkspacePermission>>)

  /** `{ ...m, ...patch }`. */
  function ApplyMemberPatch(m: WorkspaceMember, p: MemberPatch): (r: WorkspaceMember)
    ensures p.userId.None? && p.workspaceId.None? ==> r.userId == m.userId && r.workspaceId == m.workspaceId
    ensures p.role.Some? ==> r.role == p.role.value
    ensures p.role.None? ==> r.role == m.role
  {
    WorkspaceMember(p.userId.GetOr(m.userId), p.workspaceId.GetOr(m.workspaceId), p.role.GetOr(m.role),
                    p.joinedAt.GetOr(m.joinedAt), p.invitedBy.GetOr(m.invitedBy), p.permissions.GetOr(m.permissions))
  }

  /** A role change changes the role and nothing else. */
  lemma RoleChangeTouchesOnlyRole(m: WorkspaceMember, role: WorkspaceRole)
    ensures ApplyMemberPatch(m, MemberPatch(None, None, Some(role), None, None, None)) == m.(role := role)
  {
  }

  /** `updateWorkspaceMember`: patches the first row of the pair; `None` (nothing written) when there is none. */
  function UpdatedMembers(ms: seq<WorkspaceMember>, workspaceId: string, userId: string, p: MemberPatch)
    : (r: Option<seq<WorkspaceMember>>)
    ensures r.None? <==> forall i :: 0 <= i < |ms| ==> !IsMembership(ms[i], workspaceId, userId)
    ensures r.Some? ==> |r.value| == |ms|
    ensures r.Some? ==> exists i: nat :: IsFirst(ms, (m: WorkspaceMember) => IsMembership(m, workspaceId, userId), i)
                          && r.value[i] == ApplyMemberPatch(ms[i], p)
                          && forall j :: 0 <= j < |ms| && j != i ==> r.value[j] == ms[j]
  {
    ReplaceFirst(ms, (m: WorkspaceMember) => IsMembership(m, workspaceId, userId), (m: WorkspaceMember) => ApplyMemberPatch(m, p))
  }

  /** `removeWorkspaceMember`: drops every row of the pair; `None` (nothing written) when there is none. */
  function RemovedMembers(ms: seq<WorkspaceMember>, workspaceId: string, userId: string): (r: Option<seq<WorkspaceMember>>)
    ensures r.None? <==> forall i :: 0 <= i < |ms| ==> !IsMembership(ms[i], workspaceId, userId)
    ensures r.Some? ==> (forall m :: m in r.value <==> m in ms && !IsMembership(m, workspaceId, userId)) && |r.value| < |ms|
    ensures r.Some? ==> IsSubsequence(r.value, ms)
    ensures r.Some? ==> r.value == Filter(ms, (m: WorkspaceMember) => !IsMembership(m, workspaceId, userId))
  {
    KeepOnly(ms, (m: WorkspaceMember) => !IsMembership(m, workspaceId, userId))
  }

  /** Removing a member does not change the member list of any other workspace. */
  lemma RemoveMemberIsLocal(ms: seq<WorkspaceMember>, workspaceId: string, userId: string, other: string)
    requires RemovedMembers(ms, workspaceId, userId).Some? && other != workspaceId
    ensures WorkspaceMembers(RemovedMembers(ms, workspaceId, userId).value, other) == WorkspaceMembers(ms, other)
  {
    FilterOfFilter(ms, (m: WorkspaceMember) => !IsMembership(m, workspaceId, userId),
                   (m: WorkspaceMember) => m.workspaceId == other);
  }

  /* ---------------------------------------------------------------------------------------- */
  /* Activities                                                                               */
  /* ---------------------------------------------------------------------------------------- */

  /** The sort key of an activity. */
  function TimestampOf(a: WorkspaceActivity): int
  {
    a.timestamp
  }

  /** The activities of one workspace, in stored order. */
  function ActivitiesOf(acts: seq<WorkspaceActivity>, workspaceId: string): (r: seq<WorkspaceActivity>)
    ensures forall a :: a in r <==> a in acts && a.workspaceId == workspaceId
    ensures IsSubsequence(r, acts)
    ensures r == Filter(acts, (a: WorkspaceActivity) => a.workspaceId == workspaceId)
  {
    var keep := (a: WorkspaceActivity) => a.workspaceId == workspaceId;
    FilterIsSubsequence(acts, keep);
    Filter(acts, keep)
  }

  /**
   * `getWorkspaceActivities`: the workspace's activities, newest first; a truthy `limit` (given
   * and not zero) then applies `slice(0, limit)`, so a negative limit drops entries from the end.
   */
  function WorkspaceActivities(acts: seq<WorkspaceActivity>, workspaceId: string, limit: Option<int>)
    : (r: seq<WorkspaceActivity>)
    ensures forall a :: a in r ==> a in acts && a.workspaceId == workspaceId
    ensures forall i, j :: 0 <= i < j < |r| ==> r[i].timestamp >= r[j].timestamp
    ensures multiset(r) <= multiset(ActivitiesOf(acts, workspaceId))
    ensures (limit.None? || limit == Some(0)) ==> multiset(r) == multiset(ActivitiesOf(acts, workspaceId))
    ensures limit.Some? && limit.value > 0 ==>
              |r| == if limit.value < |ActivitiesOf(acts, workspaceId)| then limit.value else |ActivitiesOf(acts, workspaceId)|
    ensures limit.Some? && limit.value < 0 ==>
              |r| == if |ActivitiesOf(acts, workspaceId)| + limit.value > 0 then |ActivitiesOf(acts, workspaceId)| + limit.value else 0
  {
    var mine := ActivitiesOf(acts, workspaceId);
    var sorted := SortDesc(mine, TimestampOf);
    if limit.Some? && limit.value != 0 then
      SliceOfSorted(sorted, TimestampOf, limit.value);
      var r := SliceTo(sorted, limit.value);
      forall a | a in r ensures a in mine {
        assert a in multiset(mine);
      }
      r
    else
      forall a | a in sorted ensures a in mine {
        assert a in multiset(mine);
      }
      sorted
  }

  /**
   * With a limit, positive or negative, an activity of the workspace that is left out is no newer
   * than any listed one; a positive limit that leaves one out lists exactly that many.
   */
  lemma LimitedActivitiesAreTheNewest(acts: seq<WorkspaceActivity>, workspaceId: string, limit: int, a: WorkspaceActivity)
    requires limit != 0
    requires a in acts && a.workspaceId == workspaceId
    requires a !in WorkspaceActivities(acts, workspaceId, Some(limit))
    ensures limit > 0 ==> |WorkspaceActivities(acts, workspaceId, Some(limit))| == limit
    ensures forall b :: b in WorkspaceActivities(acts, workspaceId, Some(limit)) ==> b.timestamp >= a.timestamp
  {
    var mine := ActivitiesOf(acts, workspaceId);
    assert a in multiset(mine);
    TopOfSorted(mine, TimestampOf, limit, a);
  }

  /** The sort is stable: activities with the same time stamp are listed in the order they were stored. */
  lemma SameTimeActivitiesKeepOrder(acts: seq<WorkspaceActivity>, workspaceId: string, p: WorkspaceActivity -> bool, t: int)
    requires forall a :: p(a) == (a.timestamp == t)
    ensures Filter(WorkspaceActivities(acts, workspaceId, None), p) == Filter(ActivitiesOf(acts, workspaceId), p)
  {
    SortDescStable(ActivitiesOf(acts, workspaceId), TimestampOf, p, t);
  }

  /* ---------------------------------------------------------------------------------------- */
  /* Invitations                                                                              */
  /* ---------------------------------------------------------------------------------------- */

  /** `getWorkspaceInvitations`: the invitations of one workspace, in stored order. */
  function WorkspaceInvitations(vs: seq<WorkspaceInvitation>, workspaceId: string): (r: seq<WorkspaceInvitation>)
    ensures forall v :: v in r <==> v in vs && v.workspaceId == workspaceId
    ensures IsSubsequence(r, vs)
    ensures r == Filter(vs, (v: WorkspaceInvitation) => v.workspaceId == workspaceId)
  {
    var keep := (v: WorkspaceInvitation) => v.workspaceId == workspaceId;
    FilterIsSubsequence(vs, keep);
    Filter(vs, keep)
  }

  /** The input of `createInvitation`: an invitation without its id and token. */
  datatype InvitationDraft = InvitationDraft(
    workspaceId: string,
    email: string,
    role: WorkspaceRole,
    invitedBy: string,
    invitedAt: Instant,
    expiresAt: Instant,
    status: InvitationStatus)

  /** The invitation `createInvitation` stores: the draft with the fresh id and token. */
  function NewInvitation(draft: InvitationDraft, id: string, token: string): (v: WorkspaceInvitation)
    ensures v.id == id && v.token == token
    ensures v.workspaceId == draft.workspaceId && v.email == draft.email && v.role == draft.role
    ensures v.invitedBy == draft.invitedBy && v.invitedAt == draft.invitedAt
    ensures v.expiresAt == draft.expiresAt && v.status == draft.status
  {
    WorkspaceInvitation(id, draft.workspaceId, draft.email, draft.role, draft.invitedBy, draft.invitedAt,
                        draft.expiresAt, draft.status, token)
  }

  /** A `Partial<WorkspaceInvitation>`. */
  datatype InvitationPatch = InvitationPatch(
    id: Option<string>,
    workspaceId: Option<string>,
    email: Option<string>,
    role: Option<WorkspaceRole>,
    invitedBy: Option<string>,
    invitedAt: Option<Instant>,
    expiresAt: Option<Instant>,
    status: Option<InvitationStatus>,
    token: Option<string>)

  /** `{ ...v, ...patch }`. */
  function ApplyInvitationPatch(v: WorkspaceInvitation, p: InvitationPatch): (r: WorkspaceInvitation)
    ensures p.status.Some? ==> r.status == p.status.value
    ensures p.id.None? && p.token.None? ==> r.id == v.id && r.token == v.token
  {
    WorkspaceInvitation(p.id.GetOr(v.id), p.workspaceId.GetOr(v.workspaceId), p.email.GetOr(v.email),
                        p.role.GetOr(v.role), p.invitedBy.GetOr(v.invitedBy), p.invitedAt.GetOr(v.invitedAt),
                        p.expiresAt.GetOr(v.expiresAt), p.status.GetOr(v.status), p.token.GetOr(v.token))
  }

  /** A status change changes the status and nothing else. */
  lemma StatusChangeTouchesOnlyStatus(v: WorkspaceInvitation, status: InvitationStatus)
    ensures ApplyInvitationPatch(v, InvitationPatch(None, None, None, None, None, None, None, Some(status), None))
              == v.(status := status)
  {
  }

  /** `updateInvitation`: patches the first invitation with the id; `None` (nothing written) when there is none. */
  function UpdatedInvitations(vs: seq<WorkspaceInvitation>, id: string, p: InvitationPatch): (r: Option<seq<WorkspaceInvitation>>)
    ensures r.None? <==> forall i :: 0 <= i < |vs| ==> vs[i].id != id
    ensures r.Some? ==> |r.value| == |vs|
    ensures r.Some? ==> exists i: nat :: IsFirst(vs, (v: WorkspaceInvitation) => v.id == id, i)
                          && r.value[i] == ApplyInvitationPatch(vs[i], p)
                          && forall j :: 0 <= j < |vs| && j != i ==> r.value[j] == vs[j]
  {
    ReplaceFirst(vs, (v: WorkspaceInvitation) => v.id == id, (v: WorkspaceInvitation) => ApplyInvitationPatch(v, p))
  }

  /* ---------------------------------------------------------------------------------------- */
  /* A user's workspaces                                                                      */
  /* ---------------------------------------------------------------------------------------- */

  /** `getUserWorkspaces`: the workspaces the user owns or holds a membership row in, in stored order. */
  function UserWorkspaces(d: WorkspaceData, userId: string): (r: seq<Workspace>)
    ensures forall w :: w in r <==>
              w in d.workspaces && (w.ownerId == userId || exists m :: m in d.members && IsMembership(m, w.id, userId))
    ensures IsSubsequence(r, d.workspaces)
  {
    var mine := Filter(d.members, (m: WorkspaceMember) => m.userId == userId);
    var ids := Map(mine, (m: WorkspaceMember) => m.workspaceId);
    var visible := (w: Workspace) => w.ownerId == userId || w.id in ids;
    FilterIsSubsequence(d.workspaces, visible);
    var r := Filter(d.workspaces, visible);
    forall w: Workspace ensures w.id in ids <==> exists m :: m in d.members && IsMembership(m, w.id, userId) {
      if w.id in ids {
        var k :| 0 <= k < |ids| && ids[k] == w.id;
        assert mine[k] in d.members && IsMembership(mine[k], w.id, userId);
      }
      if m :| m in d.members && IsMembership(m, w.id, userId) {
        assert m in mine;
        var k :| 0 <= k < |mine| && mine[k] == m;
        assert ids[k] == w.id;
      }
    }
    r
  }

  /* ---------------------------------------------------------------------------------------- */
  /* The default workspace                                                                    */
  /* ---------------------------------------------------------------------------------------- */

  /** The settings of a personal workspace: private, approval required, two-week loans, every feature on. */
  const DefaultSettings := WorkspaceSettings(false, true, true, 14, true, true, true)

  /** The workspace `createDefaultWorkspace` asks `createWorkspace` for. */
  function DefaultDraft(userId: string, userName: string): (draft: WorkspaceDraft)
    ensures draft.ownerId == userId && draft.name == userName + "'s Library"
    ensures draft.members == [] && !draft.isPublic && draft.settings.maxBorrowDuration == 14
  {
    WorkspaceDraft(userName + "'s Library", Some("My personal library workspace"), userId, [], DefaultSettings, false)
  }

  /** What `createDefaultWorkspace` returns, with the state it leaves stored. */
  datatype Creation = Creation(workspace: Workspace, data: WorkspaceData)

  /**
   * `createDefaultWorkspace`: creates the personal workspace, then adds its owner as a member
   * and logs its creation, each under the same clock reading.
   */
  function CreateDefault(d: WorkspaceData, userId: string, userName: string, workspaceId: string, activityId: string, now: Instant)
    : (r: Creation)
    ensures r.workspace == NewWorkspace(DefaultDraft(userId, userName), workspaceId, now)
    ensures r.data.workspaces == d.workspaces + [r.workspace]
    ensures r.data.members == d.members + [WorkspaceMember(userId, workspaceId, Owner, now, None, [])]
    ensures r.data.activities == d.activities
              + [WorkspaceActivity(activityId, workspaceId, userId, Created, WorkspaceTarget, workspaceId,
                                   map["name" := r.workspace.name], now)]
    ensures r.data.invitations == d.invitations
  {
    var w := NewWorkspace(DefaultDraft(userId, userName), workspaceId, now);
    var member := WorkspaceMember(userId, w.id, Owner, now, None, []);
    var activity := WorkspaceActivity(activityId, w.id, userId, Created, WorkspaceTarget, w.id, map["name" := w.name], now);
    Creation(w, WorkspaceData(d.workspaces + [w], d.members + [member], d.activities + [activity], d.invitations))
  }

  /** The new personal workspace is one of its owner's workspaces, and its only new member row is the owner's. */
  lemma CreateDefaultIsUsers(d: WorkspaceData, userId: string, userName: string, workspaceId: string, activityId: string, now: Instant)
    ensures var c := CreateDefault(d, userId, userName, workspaceId, activityId, now);
      c.workspace in UserWorkspaces(c.data, userId)
      && WorkspaceMembers(c.data.members, workspaceId) == WorkspaceMembers(d.members, workspaceId)
                                                           + [WorkspaceMember(userId, workspaceId, Owner, now, None, [])]
  {
    var c := CreateDefault(d, userId, userName, workspaceId, activityId, now);
    FilterAppend(d.members, [WorkspaceMember(userId, workspaceId, Owner, now, None, [])],
                 (m: WorkspaceMember) => m.workspaceId == workspaceId);
    assert c.workspace in c.data.workspaces;
  }

  /** Creating the default workspace keeps every member, activity and invitation attached to a stored workspace. */
  lemma CreateDefaultKeepsReferences(d: WorkspaceData, userId: string, userName: string, workspaceId: string, activityId: string, now: Instant)
    requires ReferencesIntact(d)
    ensures ReferencesIntact(CreateDefault(d, userId, userName, workspaceId, activityId, now).data)
  {
    var c := CreateDefault(d, userId, userName, workspaceId, activityId, now);
    var w0 := c.workspace;
    assert w0 in c.data.workspaces && w0.id == workspaceId;
    forall m | m in c.data.members ensures exists w :: w in c.data.workspaces && w.id == m.workspaceId {
      if m in d.members {
        var w :| w in d.workspaces && w.id == m.workspaceId;
        assert w in c.data.workspaces;
      } else {
        assert m.workspaceId == w0.id;
      }
    }
    forall a | a in c.data.activities ensures exists w :: w in c.data.workspaces && w.id == a.workspaceId {
      if a in d.activities {
        var w :| w in d.workspaces && w.id == a.workspaceId;
        assert w in c.data.workspaces;
      } else {
        assert a.workspaceId == w0.id;
      }
    }
    forall v | v in c.data.invitations ensures exists w :: w in c.data.workspaces && w.id == v.workspaceId {
      var w :| w in d.workspaces && w.id == v.workspaceId;
      assert w in c.data.workspaces;
    }
  }

  /* ---------------------------------------------------------------------------------------- */
  /* The store                                                                                */
  /* ---------------------------------------------------------------------------------------- */

  /** The four storage keys of the workspace service. */
  class WorkspaceStore {
    var workspaces: seq<Workspace>
    var members: seq<WorkspaceMember>
    var activities: seq<WorkspaceActivity>
    var invitations: seq<WorkspaceInvitation>

    constructor ()
      ensures workspaces == [] && members == [] && activities == [] && invitations == []
    {
      workspaces, members, activities, invitations := [], [], [], [];
    }

    /** The stored state as a value. */
    function Data(): WorkspaceData
      reads this
    {
      WorkspaceData(workspaces, members, activities, invitations)
    }

    /** `getWorkspace`. */
    function GetWorkspace(id: string): Option<Workspace>
      reads this
    {
      FindWorkspace(workspaces, id)
    }

    /** `createWorkspace`: appends the draft under the fresh id. */
    method CreateWorkspace(draft: WorkspaceDraft, id: string, now: Instant) returns (w: Workspace)
      modifies this
      ensures w == NewWorkspace(draft, id, now)
      ensures Data() == old(Data()).(workspaces := old(workspaces) + [w])
    {
      w := NewWorkspace(draft, id, now);
      workspaces := workspaces + [w];
    }

    /** `updateWorkspace`. */
    method UpdateWorkspace(id: string, patch: WorkspacePatch, now: Instant) returns (updated: Option<Workspace>)
      modifies this
      ensures match UpdatedWorkspaces(old(workspaces), id, patch, now)
        case None => updated.None? && Data() == old(Data())
        case Some(ws) => Data() == old(Data()).(workspaces := ws)
                         && updated == Some(ApplyWorkspacePatch(old(GetWorkspace(id)).value, patch, now))
    {
      var all := workspaces;
      var index := FindIndex(all, (w: Workspace) => w.id == id);
      if index.None? {
        return None;
      }
      var i := index.value;
      assert IsFirst(all, (w: Workspace) => w.id == id, i);
      all := all[i := ApplyWorkspacePatch(all[i], patch, now)];
      workspaces := all;
      updated := Some(all[i]);
    }

    /** `deleteWorkspace`: true when a workspace was dropped, together with everything attached to it. */
    method DeleteWorkspace(id: string) returns (deleted: bool)
      modifies this
      ensures deleted <==> old(GetWorkspace(id)).Some?
      ensures Data() == DeleteWorkspaceData(old(Data()), id).GetOr(old(Data()))
    {
      var kept := KeepOnly(workspaces, (w: Workspace) => w.id != id);
      if kept.None? {
        return false;
      }
      workspaces := kept.value;
      members := Filter(members, (m: WorkspaceMember) => m.workspaceId != id);
      activities := Filter(activities, (a: WorkspaceActivity) => a.workspaceId != id);
      invitations := Filter(invitations, (v: WorkspaceInvitation) => v.workspaceId != id);
      deleted := true;
    }

    /** `addWorkspaceMember`: appends the row as given; neither duplicates nor the workspace are checked. */
    method AddWorkspaceMember(member: WorkspaceMember) returns (added: WorkspaceMember)
      modifies this
      ensures added == member
      ensures Data() == old(Data()).(members := old(members) + [member])
    {
      members := members + [member];
      added := member;
    }

    /** `updateWorkspaceMember`. */
    method UpdateWorkspaceMember(workspaceId: string, userId: string, patch: MemberPatch) returns (updated: Option<WorkspaceMember>)
      modifies this
      ensures match UpdatedMembers(old(members), workspaceId, userId, patch)
        case None => updated.None? && Data() == old(Data())
        case Some(ms) => Data() == old(Data()).(members := ms) && updated.Some?
                         && exists i: nat :: IsFirst(old(members), (m: WorkspaceMember) => IsMembership(m, workspaceId, userId), i)
                                             && updated.value == ms[i]
    {
      var all := members;
      var index := FindIndex(all, (m: WorkspaceMember) => IsMembership(m, workspaceId, userId));
      if index.None? {
        return None;
      }
      var i := index.value;
      assert IsFirst(all, (m: WorkspaceMember) => IsMembership(m, workspaceId, userId), i);
      all := all[i := ApplyMemberPatch(all[i], patch)];
      members := all;
      updated := Some(all[i]);
    }

    /** `removeWorkspaceMember`: true when some row was dropped. */
    method RemoveWorkspaceMember(workspaceId: string, userId: string) returns (removed: bool)
      modifies this
      ensures removed <==> RemovedMembers(old(members), workspaceId, userId).Some?
      ensures Data() == old(Data()).(members := RemovedMembers(old(members), workspaceId, userId).GetOr(old(members)))
    {
      var kept := KeepOnly(members, (m: WorkspaceMember) => !IsMembership(m, workspaceId, userId));
      if kept.None? {
        return false;
      }
      members := kept.value;
      removed := true;
    }

    /** `getWorkspaceActivities`. */
    function GetWorkspaceActivities(workspaceId: string, limit: Option<int>): seq<WorkspaceActivity>
      reads this
    {
      WorkspaceActivities(activities, workspaceId, limit)
    }

    /** `addWorkspaceActivity`: appends the entry as given. */
    method AddWorkspaceActivity(activity: WorkspaceActivity) returns (added: WorkspaceActivity)
      modifies this
      ensures added == activity
      ensures Data() == old(Data()).(activities := old(activities) + [activity])
    {
      activities := activities + [activity];
      added := activity;
    }

    /** `createInvitation`: appends the draft under the fresh id and token. */
    method CreateInvitation(draft: InvitationDraft, id: string, token: string) returns (v: WorkspaceInvitation)
      modifies this
      ensures v == NewInvitation(draft, id, token)
      ensures Data() == old(Data()).(invitations := old(invitations) + [v])
    {
      v := NewInvitation(draft, id, token);
      invitations := invitations + [v];
    }

    /** `updateInvitation`. */
    method UpdateInvitation(id: string, patch: InvitationPatch) returns (updated: Option<WorkspaceInvitation>)
      modifies this
      ensures match UpdatedInvitations(old(invitations), id, patch)
        case None => updated.None? && Data() == old(Data())
        case Some(vs) => Data() == old(Data()).(invitations := vs) && updated.Some?
                         && exists i: nat :: IsFirst(old(invitations), (v: WorkspaceInvitation) => v.id == id, i)
                                             && updated.value == vs[i]
    {
      var all := invitations;
      var index := FindIndex(all, (v: WorkspaceInvitation) => v.id == id);
      if index.None? {
        return None;
      }
      var i := index.value;
      assert IsFirst(all, (v: WorkspaceInvitation) => v.id == id, i);
      all := all[i := ApplyInvitationPatch(all[i], patch)];
      invitations := all;
      updated := Some(all[i]);
    }

    /** `getUserWorkspaces`. */
    function GetUserWorkspaces(userId: string): seq<Workspace>
      reads this
    {
      UserWorkspaces(Data(), userId)
    }

    /** `createDefaultWorkspace`: three appends under one clock reading. */
    method CreateDefaultWorkspace(userId: string, userName: string, workspaceId: string, activityId: string, now: Instant)
      returns (w: Workspace)
      modifies this
      ensures var c := CreateDefault(old(Data()), userId, userName, workspaceId, activityId, now);
        w == c.workspace && Data() == c.data
      ensures w in GetUserWorkspaces(userId)
    {
      w := CreateWorkspace(DefaultDraft(userId, userName), workspaceId, now);
      var _ := AddWorkspaceMember(WorkspaceMember(userId, w.id, Owner, now, None, []));
      var _ := AddWorkspaceActivity(WorkspaceActivity(activityId, w.id, userId, Created, WorkspaceTarget, w.id,
                                                      map["name" := w.name], now));
      CreateDefaultIsUsers(old(Data()), userId, userName, workspaceId, activityId, now);
    }
  }
}
