/**
 * The records the data layer stores: books and their borrowing history, per-user favourites,
 * and workspaces with their members, activity log and invitations.
 *
 * Every clock value (`Date.now()`, `new Date().toISOString()`) is an `Instant`: the number of
 * milliseconds since the epoch that the stored ISO-8601 text denotes, which is the value the
 * source compares when it sorts by `new Date(x).getTime()`.
 */
module LibraryTypes {
  import opened Wrappers

  type Instant = int

  /**
   * A catalogue entry. A book that is out on loan has `isAvailable == false` and a borrower,
   * a due date and a borrowing date; an available book has none of the three.
   */
  datatype Book = Book(
    id: string,
    title: string,
    author: string,
    genre: string,
    year: int,
    isbn: string,
    tags: seq<string>,
    summary: Option<string>,
    isAvailable: bool,
    borrower: Option<string>,
    dueDate: Option<string>,
    borrowedDate: Option<Instant>)

  /** The availability invariant: a book is available exactly when it carries no loan data. */
  predicate LoanConsistent(b: Book)
  {
    if b.isAvailable then b.borrower.None? && b.dueDate.None? && b.borrowedDate.None?
    else b.borrower.Some? && b.dueDate.Some? && b.borrowedDate.Some?
  }

  /** One loan of one book; it is open while `returnedDate` is absent. */
  datatype BorrowingRecord = BorrowingRecord(
    id: string,
    bookId: string,
    borrower: string,
    borrowedDate: Instant,
    dueDate: string,
    returnedDate: Option<Instant>)

  /** A book marked as a favourite by a user. */
  datatype UserFavorite = UserFavorite(id: string, userId: string, bookId: string, dateAdded: Instant)

  /** One entry of a genre histogram. */
  datatype GenreCount = GenreCount(genre: string, count: nat)

  /** The aggregate figures shown on the dashboard. */
  datatype LibraryStats = LibraryStats(
    totalBooks: nat,
    borrowedBooks: nat,
    availableBooks: nat,
    popularGenres: seq<GenreCount>,
    recentBorrowings: seq<BorrowingRecord>)

  datatype WorkspaceRole = Owner | Admin | Librarian | Member | Viewer

  datatype PermissionAction = Create | Read | Update | Delete | Manage | Invite

  datatype PermissionResource = Books | Borrowings | Members | Settings | WorkspaceResource

  datatype WorkspacePermission = WorkspacePermission(
    action: PermissionAction, resource: PermissionResource, granted: bool)

  datatype WorkspaceSettings = WorkspaceSettings(
    allowPublicAccess: bool,
    requireApprovalForJoining: bool,
    borrowingEnabled: bool,
    maxBorrowDuration: int,
    aiAnalysisEnabled: bool,
    collaborativeEditingEnabled: bool,
    notificationsEnabled: bool)

  /** A role-tagged membership, keyed by the pair (workspaceId, userId). */
  datatype WorkspaceMember = WorkspaceMember(
    userId: string,
    workspaceId: string,
    role: WorkspaceRole,
    joinedAt: Instant,
    invitedBy: Option<string>,
    permissions: seq<WorkspacePermission>)

  datatype Workspace = Workspace(
    id: string,
    name: string,
    description: Option<string>,
    ownerId: string,
    members: seq<WorkspaceMember>,
    settings: WorkspaceSettings,
    createdAt: Instant,
    updatedAt: Instant,
    isPublic: bool)

  datatype ActivityAction = Created | Updated | Deleted | Borrowed | Returned | Invited | Joined | Left

  datatype ActivityResource = BookResource | BorrowingResource | MemberResource | WorkspaceTarget | SettingsResource

  /** An entry of a workspace's activity log; `details` keeps its string-valued fields. */
  datatype WorkspaceActivity = WorkspaceActivity(
    id: string,
    workspaceId: string,
    userId: string,
    action: ActivityAction,
    resourceType: ActivityResource,
    resourceId: string,
    details: map<string, string>,
    timestamp: Instant)

  datatype InvitationStatus = Pending | Accepted | Declined | Expired

  datatype WorkspaceInvitation = WorkspaceInvitation(
    id: string,
    workspaceId: string,
    email: string,
    role: WorkspaceRole,
    invitedBy: string,
    invitedAt: Instant,
    expiresAt: Instant,
    status: InvitationStatus,
    token: string)
}
