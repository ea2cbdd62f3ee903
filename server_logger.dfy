/** The server-side audit logger the routes call after a successful write. */
module ServerLogger {
  import opened Types
  import Database

  /** The closed set of actions the logger accepts. */
  datatype Action =
    | Login | Register | CreatePerformance | JoinPerformance | LeavePerformance
    | JoinEvent | LeaveEvent | AddTask | AddFeedback | VotePerformance
    | CommentPerformance | TicketStatusChange | AdminDeleteUser | AdminCreateEvent
    | AdminUpdateEvent | AdminDeleteEvent | AdminToggleVoting | AdminToggleIllusion
    | AdminSyncPerformanceEvent | AdminToggleBodyguard | AdminApproveTicket
    | AdminResetNotifications | VerifyTicket | UpdateProfile | ViewPage | ClickTab
    | OpenModal | CloseModal | ClickButton | ViewPerformance | ViewEvent | ViewTicket
    | ViewDashboard | ViewAdmin

  /** The string literal the logger stores for each action. */
  function ActionName(a: Action): string
  {
    match a
    case Login => "LOGIN"
    case Register => "REGISTER"
    case CreatePerformance => "CREATE_PERFORMANCE"
    case JoinPerformance => "JOIN_PERFORMANCE"
    case LeavePerformance => "LEAVE_PERFORMANCE"
    case JoinEvent => "JOIN_EVENT"
    case LeaveEvent => "LEAVE_EVENT"
    case AddTask => "ADD_TASK"
    case AddFeedback => "ADD_FEEDBACK"
    case VotePerformance => "VOTE_PERFORMANCE"
    case CommentPerformance => "COMMENT_PERFORMANCE"
    case TicketStatusChange => "TICKET_STATUS_CHANGE"
    case AdminDeleteUser => "ADMIN_DELETE_USER"
    case AdminCreateEvent => "ADMIN_CREATE_EVENT"
    case AdminUpdateEvent => "ADMIN_UPDATE_EVENT"
    case AdminDeleteEvent => "ADMIN_DELETE_EVENT"
    case AdminToggleVoting => "ADMIN_TOGGLE_VOTING"
    case AdminToggleIllusion => "ADMIN_TOGGLE_ILLUSION"
    case AdminSyncPerformanceEvent => "ADMIN_SYNC_PERFORMANCE_EVENT"
    case AdminToggleBodyguard => "ADMIN_TOGGLE_BODYGUARD"
    case AdminApproveTicket => "ADMIN_APPROVE_TICKET"
    case AdminResetNotifications => "ADMIN_RESET_NOTIFICATIONS"
    case VerifyTicket => "VERIFY_TICKET"
    case UpdateProfile => "UPDATE_PROFILE"
    case ViewPage => "VIEW_PAGE"
    case ClickTab => "CLICK_TAB"
    case OpenModal => "OPEN_MODAL"
    case CloseModal => "CLOSE_MODAL"
    case ClickButton => "CLICK_BUTTON"
    case ViewPerformance => "VIEW_PERFORMANCE"
    case ViewEvent => "VIEW_EVENT"
    case ViewTicket => "VIEW_TICKET"
    case ViewDashboard => "VIEW_DASHBOARD"
    case ViewAdmin => "VIEW_ADMIN"
  }

  /** The log table after one `log.create`: the entry is appended when its
      user row exists; otherwise the foreign key rejects the insert and the
      table is unchanged. A missing or empty `details` is stored as null. */
  function Logged(logs: seq<LogEntry>, users: map<Id, User>, userId: Id, action: string,
                  details: Option<string>, metadata: Option<Metadata>, now: int): (r: seq<LogEntry>)
    ensures userId in users ==> |r| == |logs| + 1 && r[..|logs|] == logs
    ensures userId in users ==> r[|logs|] == LogEntry(userId, action, NullIfEmpty(details), metadata, now)
    ensures userId !in users ==> r == logs
  {
    if userId in users then logs + [LogEntry(userId, action, NullIfEmpty(details), metadata, now)] else logs
  }

  /** `logAction`: appends one entry, or nothing when the insert fails; the
      failure is swallowed, so the method always returns normally. */
  method LogAction(db: Database.Store, userId: Id, action: Action,
                   details: Option<string>, metadata: Option<Metadata>, now: int)
    modifies db`logs
    ensures db.logs == Logged(old(db.logs), db.users, userId, ActionName(action), details, metadata, now)
  {
    if userId in db.users {
      db.logs := db.logs + [LogEntry(userId, ActionName(action), NullIfEmpty(details), metadata, now)];
    }
  }
}
