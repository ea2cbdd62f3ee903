/** Entities of the party application's database and the shapes of the
    requests and responses its API routes exchange. */
module Types {

  /** Row identifiers. The database generates them; the model draws them from
      a counter kept in the store. */
  type Id = nat

  datatype Option<T> = None | Some(value: T)

  /** JavaScript's `x || null` on an optional string: a missing value and the
      empty string are both stored as null. */
  function NullIfEmpty(s: Option<string>): (r: Option<string>)
    ensures r.Some? ==> s == r && r.value != ""
    ensures s.Some? && s.value != "" ==> r == s
  {
    if s.Some? && s.value != "" then s else None
  }

  /** JavaScript's `!x` on an optional string: missing or empty. */
  predicate Falsy(s: Option<string>)
  {
    s.None? || s.value == ""
  }

  datatype TicketStatus = NotActivated | PaymentPending | Activated

  function StatusName(s: TicketStatus): string
  {
    match s
    case NotActivated => "NOT_ACTIVATED"
    case PaymentPending => "PAYMENT_PENDING"
    case Activated => "ACTIVATED"
  }

  /** A bcrypt hash stands for the password it was made from: comparing a
      candidate with it succeeds exactly when the candidate is that password. */
  datatype PasswordHash = BcryptHash(plain: string)

  predicate PasswordMatches(candidate: string, stored: PasswordHash)
  {
    stored.plain == candidate
  }

  /** A user row. `language` is "" when the column is null. */
  datatype User = User(
    name: string,
    email: string,
    phone: string,
    password: PasswordHash,
    emailVerified: bool,
    isAdmin: bool,
    isBodyguard: bool,
    notificationCount: int,
    language: string)

  /** A ticket row; the store keys tickets by their owner's user id, which is
      the unique column `Ticket.userId`. */
  datatype Ticket = Ticket(id: Id, status: TicketStatus)

  datatype Performance = Performance(
    id: Id,
    name: string,
    description: Option<string>,
    maxParticipants: int,
    creatorId: Id,
    createdAt: int)

  datatype Vote = Vote(userId: Id, performanceId: Id, points: int)

  /** An event row; prices are whole currency units. */
  datatype Event = Event(
    id: Id,
    name: string,
    description: Option<string>,
    price: int,
    imageUrl: Option<string>,
    isLocked: bool,
    autoJoin: bool,
    isActive: bool,
    createdAt: int)

  /** A stored e-mail verification code; `expiresAt` is in milliseconds. */
  datatype VerificationCode = VerificationCode(email: string, code: string, expiresAt: int, used: bool)

  datatype AppSettings = AppSettings(votingEnabled: bool, illusionMode: bool)

  /** The values a log entry's metadata object carries; row identifiers
      are written as `JId`. */
  datatype JsonValue = JString(s: string) | JNumber(n: int) | JId(id: Id)

  type Metadata = seq<(string, JsonValue)>

  datatype LogEntry = LogEntry(
    userId: Id,
    action: string,
    details: Option<string>,
    metadata: Option<Metadata>,
    createdAt: int)

  datatype Task = Task(id: Id, description: string, kind: string, userId: Id, createdAt: int)

  datatype Feedback = Feedback(id: Id, content: string, userId: Id, createdAt: int)

  /** The signed-in user as the session callback exposes it to the routes. */
  datatype Principal = Principal(id: Id, isAdmin: bool, isBodyguard: bool)

  predicate IsAdmin(p: Option<Principal>)
  {
    p.Some? && p.value.isAdmin
  }

  /** A request-body field seen through JavaScript's `typeof`: absent
      (undefined), a boolean, or a value of some other type. */
  datatype Field = Absent | Bool(b: bool) | NonBoolean

  /** The owner fields the verify route selects. */
  datatype Owner = Owner(id: Id, name: string, phone: string)

  /** One leaderboard row of the votes route. */
  datatype PerformanceStats = PerformanceStats(
    id: Id,
    name: string,
    description: Option<string>,
    creatorId: Id,
    participants: set<Id>,
    totalPoints: int,
    voteCount: nat,
    userVote: Option<int>,
    isParticipant: bool)

  datatype Body =
    | Failure(error: string)
    | Message(message: string)
    | Success
    | TicketBody(userId: Id, ticket: Ticket)
    | Verified(valid: bool, ticketId: Id, status: TicketStatus, owner: Owner)
    | VerifyFailure(valid: bool, reason: string, statusText: string)
    | PerformanceBody(performance: Performance)
    | PerformanceList(performances: seq<Performance>)
    | Synced(synced: nat)
    | Registered(userId: Id)
    | SettingsBody(settings: AppSettings)
    | Stats(totalUsers: nat, totalPerformances: nat, totalEvents: nat,
             activated: nat, pending: nat, notActivated: nat)
    | BodyguardBody(userId: Id, name: string, isBodyguard: bool)
    | NotificationCount(count: int)
    | Language(language: string)
    | TaskBody(task: Task)
    | TaskList(tasks: seq<Task>)
    | FeedbackBody(feedback: Feedback)
    | FeedbackList(feedbacks: seq<Feedback>)
    | EventBody(event: Event)
    | EventList(events: seq<Event>)
    | LogList(logs: seq<LogEntry>)
    | Leaderboard(entries: seq<PerformanceStats>)

  /** An HTTP response: status code and JSON payload. */
  datatype Response = Response(status: int, body: Body)

  function Unauthorized(): Response { Response(401, Failure("Unauthorized")) }
}
