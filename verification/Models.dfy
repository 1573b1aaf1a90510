/** The tables of app/models/note.py and app/models/activity.py as values. */
module Models {
  import opened Wrappers
  import opened Security

  type NoteId = nat
  type UserId = nat

  /** Microseconds on the server's UTC clock. */
  type Time = int

  const HOUR: Time := 3_600_000_000

  datatype Permission = Read | Write

  datatype Expiry = OneHour | OneDay | SevenDays

  /** A row of `notes`. */
  datatype NoteRow = NoteRow(
    ownerId: UserId,
    title: string,
    content: Content,
    isPrivate: bool,
    keyVersion: Option<string>,
    isPinned: bool,
    pinnedAt: Option<Time>,
    deletedAt: Option<Time>,
    updatedAt: Time)
  {
    predicate IsDeleted() {
      deletedAt.Some?
    }
  }

  /** A row of `note_shares`. */
  datatype ShareRow = ShareRow(noteId: NoteId, withId: UserId, byId: UserId, permission: Permission)

  /** A row of `note_versions`. */
  datatype VersionRow = VersionRow(
    noteId: NoteId, number: nat, title: string, content: Content, modifiedBy: UserId)

  /** The bound the request schema puts on a link's quota. */
  type Quota = n: nat | 1 <= n <= 1000 witness 1

  /** A row of `share_links`. */
  datatype LinkRow = LinkRow(
    tokenHash: Digest<RawToken>,
    noteId: NoteId,
    createdBy: UserId,
    expiresAt: Time,
    accessCount: nat,
    maxAccesses: Option<nat>,
    isActive: bool)
  {
    predicate IsExpired(now: Time) {
      now > expiresAt
    }

    /** Python's truthiness test: a quota of None or 0 is no quota. */
    predicate QuotaReached() {
      maxAccesses.Some? && maxAccesses.value != 0 && accessCount >= maxAccesses.value
    }
  }

  datatype Action =
    | NoteCreated | NoteUpdated | NoteDeleted
    | NoteShared | NoteUnshared
    | NoteShareLinkCreated | NoteShareLinkAccessed
    | NoteVersionRestored | NotePinned | NoteUnpinned

  /** The JSON column `extra_data`. */
  datatype Extra =
    | NoExtra
    | CreatedAs(title: string, isPrivate: bool)
    | VersionSaved(number: nat)
    | SharedWith(target: UserId, permission: Permission)
    | RemovedUser(removed: UserId)
    | Restored(restored: nat, snapshot: nat)
    | LinkTerms(expiry: Expiry, maxAccesses: Option<nat>)
    | AccessCount(count: nat)

  /** A row of `activity_logs`; every row the note operations write names a note. `at` is its `created_at`. */
  datatype LogEntry = LogEntry(userId: Option<UserId>, action: Action, noteId: NoteId, extra: Extra, at: Time)

  /** The committed database. Tables without their own keys here keep insertion order. */
  datatype Store = Store(
    users: set<UserId>,
    notes: map<NoteId, NoteRow>,
    shares: seq<ShareRow>,
    versions: seq<VersionRow>,
    links: seq<LinkRow>,
    log: seq<LogEntry>)

  function EmptyStore(users: set<UserId>): Store {
    Store(users, map[], [], [], [], [])
  }

  /** The settings the note operations read. */
  datatype Config = Config(keyVersion: string, maxPinned: int)

  datatype Error =
    | Unauthenticated | NotFound | NoteIsDeleted | InsufficientPermissions | Conflict
    | PinLimitExceeded | TokenInvalid | TokenExpired | TokenLimitReached
    | DecryptionFailed | IntegrityViolation | MultipleResults
}
