/** The persistent records of the helpdesk — users, tickets, comments, history entries and
    attachments — and the store that holds them, with the database's own behaviour: identifiers
    from per-table sequences, unique columns that reject a clashing write at commit, and the
    cascade that removes a ticket's dependants with it. */
module Models {
  import opened Base
  import opened TicketSchemas

  const RoleUser: string := "user"
  const RoleEngineer: string := "engineer"
  const RoleAdmin: string := "admin"

  /** `role in ["engineer", "admin"]`. A role is any string, or null after an update cleared it. */
  predicate IsStaff(role: Option<string>) {
    role == Some(RoleEngineer) || role == Some(RoleAdmin)
  }

  /** `role == "user"`: the one role the ticket handlers restrict to its own tickets. */
  predicate IsPlainUser(role: Option<string>) {
    role == Some(RoleUser)
  }

  /** A row of `users`. The role column defaults to `user`. */
  datatype User = User(
    id: nat,
    telegramId: Option<int>,
    username: Option<string>,
    fullName: Option<string>,
    email: Option<string>,
    hashedPassword: Option<string>,
    role: Option<string> := Some(RoleUser))

  /** A row of `tickets`. Priority defaults to `medium` and status to `new`; the assignee and the
      close time may be absent. Timestamps other than the close time are not modelled. */
  datatype Ticket = Ticket(
    id: nat,
    number: string,
    title: string,
    description: Option<string>,
    category: Category,
    creatorId: nat,
    location: Option<string>,
    equipmentType: Option<string>,
    priority: Priority := Medium,
    status: Status := New,
    assignedTo: Option<int> := None,
    closedAt: Option<nat> := None)

  /** A row of `comments`. The internal flag is stored as the text "true" or "false". */
  datatype Comment = Comment(id: nat, ticketId: nat, userId: nat, text: string, isInternal: string := "false")

  /** A row of `ticket_history`: who did what to which ticket, with optional text snapshots. */
  datatype HistoryEntry = HistoryEntry(
    id: nat,
    ticketId: nat,
    userId: nat,
    action: string,
    oldValue: Option<string>,
    newValue: Option<string>)

  /** A row of `attachments`; the files themselves are not modelled. */
  datatype Attachment = Attachment(id: nat, ticketId: nat, fileName: string, fileType: Option<string>, uploadedBy: nat)

  /** The database: one sequence per table, each with the next identifier its sequence hands out. */
  datatype Store = Store(
    users: seq<User>,
    tickets: seq<Ticket>,
    comments: seq<Comment>,
    history: seq<HistoryEntry>,
    attachments: seq<Attachment>,
    nextUserId: nat,
    nextTicketId: nat,
    nextCommentId: nat,
    nextHistoryId: nat)

  const EmptyStore: Store := Store([], [], [], [], [], 1, 1, 1, 1)

  /** The action tag the update handler writes for a changed field. */
  function ChangedAction(field: string): string {
    field + "_changed"
  }

  // ---------------------------------------------------------------------------------------
  // Lookups: `select ... where ...` followed by `scalar_one_or_none()`

  function TicketIndex(ts: seq<Ticket>, id: int): (r: Option<nat>)
    ensures r.Some? ==> r.value < |ts| && ts[r.value].id == id
    ensures r.Some? ==> forall k :: 0 <= k < r.value ==> ts[k].id != id
    ensures r.None? <==> forall k :: 0 <= k < |ts| ==> ts[k].id != id
  {
    if |ts| == 0 then None
    else if ts[0].id == id then Some(0)
    else match TicketIndex(ts[1..], id)
      case None => None
      case Some(k) => Some(k + 1)
  }

  /** The first user the predicate selects. */
  function UserWhere(us: seq<User>, p: User -> bool): (r: Option<nat>)
    ensures r.Some? ==> r.value < |us| && p(us[r.value])
    ensures r.Some? ==> forall k :: 0 <= k < r.value ==> !p(us[k])
    ensures r.None? <==> forall k :: 0 <= k < |us| ==> !p(us[k])
  {
    if |us| == 0 then None
    else if p(us[0]) then Some(0)
    else match UserWhere(us[1..], p)
      case None => None
      case Some(k) => Some(k + 1)
  }

  function UserIndex(us: seq<User>, id: int): Option<nat> {
    UserWhere(us, (u: User) => u.id == id)
  }

  /** `User.username == name`; a null username matches nothing. */
  function UserByUsername(us: seq<User>, name: string): Option<nat> {
    UserWhere(us, (u: User) => u.username == Some(name))
  }

  function UserByEmail(us: seq<User>, email: string): Option<nat> {
    UserWhere(us, (u: User) => u.email == Some(email))
  }

  function UserByTelegram(us: seq<User>, tg: int): Option<nat> {
    UserWhere(us, (u: User) => u.telegramId == Some(tg))
  }

  // ---------------------------------------------------------------------------------------
  // Unique columns

  /** Two rows clash when they share a present username, e-mail or chat id: the unique columns
      of `users`, where nulls never clash. */
  predicate Clash(a: User, b: User) {
    || (a.username.Some? && a.username == b.username)
    || (a.email.Some? && a.email == b.email)
    || (a.telegramId.Some? && a.telegramId == b.telegramId)
  }

  predicate ClashesWithAny(us: seq<User>, u: User, except: int) {
    exists j :: 0 <= j < |us| && j != except && Clash(u, us[j])
  }

  predicate NumberTaken(ts: seq<Ticket>, number: string) {
    exists k :: 0 <= k < |ts| && ts[k].number == number
  }

  /** `session.add(user)` then commit: the row gets the next user id, or the unique constraints
      reject it and nothing is written. */
  function InsertUser(s: Store, row: User): (r: Result<(Store, User)>)
    ensures r.Failure? <==> ClashesWithAny(s.users, row.(id := s.nextUserId), -1)
    ensures r.Failure? ==> r.error == IntegrityViolation
    ensures r.Success? ==>
      var (s', u) := r.value;
      && u == row.(id := s.nextUserId)
      && s' == s.(users := s.users + [u], nextUserId := s.nextUserId + 1)
  {
    var u := row.(id := s.nextUserId);
    if ClashesWithAny(s.users, u, -1) then Failure(IntegrityViolation)
    else Success((s.(users := s.users + [u], nextUserId := s.nextUserId + 1), u))
  }

  /** Overwriting the user at index `i` and committing: rejected when the new row clashes with
      any other user. */
  function ReplaceUser(s: Store, i: nat, u: User): (r: Result<Store>)
    requires i < |s.users|
    ensures r.Failure? <==> ClashesWithAny(s.users, u, i)
    ensures r.Failure? ==> r.error == IntegrityViolation
    ensures r.Success? ==> r.value == s.(users := s.users[i := u])
  {
    if ClashesWithAny(s.users, u, i) then Failure(IntegrityViolation)
    else Success(s.(users := s.users[i := u]))
  }

  /** `session.add(ticket)` then commit: the row gets the next ticket id, or the unique
      `ticket_number` column rejects it and nothing is written. */
  function InsertTicket(s: Store, row: Ticket): (r: Result<(Store, Ticket)>)
    ensures r.Failure? <==> NumberTaken(s.tickets, row.number)
    ensures r.Failure? ==> r.error == IntegrityViolation
    ensures r.Success? ==>
      var (s', t) := r.value;
      && t == row.(id := s.nextTicketId)
      && s' == s.(tickets := s.tickets + [t], nextTicketId := s.nextTicketId + 1)
  {
    var t := row.(id := s.nextTicketId);
    if NumberTaken(s.tickets, row.number) then Failure(IntegrityViolation)
    else Success((s.(tickets := s.tickets + [t], nextTicketId := s.nextTicketId + 1), t))
  }

  /** `create_history_entry`: appends one entry with the next history id. */
  function RecordHistory(s: Store, ticketId: nat, userId: nat, action: string,
                         oldValue: Option<string>, newValue: Option<string>): (s': Store)
    ensures s'.history == s.history + [HistoryEntry(s.nextHistoryId, ticketId, userId, action, oldValue, newValue)]
    ensures s'.nextHistoryId == s.nextHistoryId + 1
    ensures s' == s.(history := s'.history, nextHistoryId := s'.nextHistoryId)
  {
    s.(history := s.history + [HistoryEntry(s.nextHistoryId, ticketId, userId, action, oldValue, newValue)],
       nextHistoryId := s.nextHistoryId + 1)
  }

  // ---------------------------------------------------------------------------------------
  // Cascade

  /** Deleting a ticket: its comments, history and attachments go with it (`delete-orphan`);
      every other row stays. No handler of the helpdesk deletes tickets. */
  function RemoveTicket(s: Store, id: nat): (s': Store)
    ensures forall t :: t in s'.tickets <==> t in s.tickets && t.id != id
    ensures forall c :: c in s'.comments <==> c in s.comments && c.ticketId != id
    ensures forall e :: e in s'.history <==> e in s.history && e.ticketId != id
    ensures forall a :: a in s'.attachments <==> a in s.attachments && a.ticketId != id
    ensures s'.users == s.users
  {
    s.(tickets := Filter(s.tickets, (t: Ticket) => t.id != id),
       comments := Filter(s.comments, (c: Comment) => c.ticketId != id),
       history := Filter(s.history, (e: HistoryEntry) => e.ticketId != id),
       attachments := Filter(s.attachments, (a: Attachment) => a.ticketId != id))
  }

  // ---------------------------------------------------------------------------------------
  // Store invariants

  /** User ids come from the sequence, are distinct, and no two users clash on a unique column. */
  predicate UsersValid(s: Store) {
    && s.nextUserId >= 1
    && (forall i :: 0 <= i < |s.users| ==> 1 <= s.users[i].id < s.nextUserId)
    && (forall i, j :: 0 <= i < |s.users| && 0 <= j < |s.users| && i != j ==>
          s.users[i].id != s.users[j].id && !Clash(s.users[i], s.users[j]))
  }

  predicate HasTicket(ts: seq<Ticket>, id: nat) {
    exists t :: t in ts && t.id == id
  }

  /** The history holds a `status_changed` entry that set the ticket to `closed`. */
  predicate ClosingRecorded(h: seq<HistoryEntry>, id: nat) {
    exists e :: e in h && e.ticketId == id && e.action == ChangedAction("status") && e.newValue == Some(StatusName(Closed))
  }

  /** Ticket ids come from the sequence and are distinct, and ticket numbers are distinct. */
  predicate TicketRowsValid(s: Store) {
    && s.nextTicketId >= 1
    && (forall i :: 0 <= i < |s.tickets| ==> 1 <= s.tickets[i].id < s.nextTicketId)
    && (forall i, j :: 0 <= i < |s.tickets| && 0 <= j < |s.tickets| && i != j ==>
          s.tickets[i].id != s.tickets[j].id && s.tickets[i].number != s.tickets[j].number)
  }

  /** A closed ticket carries a close time, and a ticket has a close time exactly when its
      history records it being set to `closed`. */
  predicate ClosingValid(s: Store) {
    && (forall i :: 0 <= i < |s.tickets| && s.tickets[i].status == Closed ==> s.tickets[i].closedAt.Some?)
    && (forall i :: 0 <= i < |s.tickets| ==>
          (s.tickets[i].closedAt.Some? <==> ClosingRecorded(s.history, s.tickets[i].id)))
  }

  /** Comments, history entries and attachments belong to a ticket in the store. */
  predicate RefsValid(s: Store) {
    && (forall c :: c in s.comments ==> HasTicket(s.tickets, c.ticketId))
    && (forall e :: e in s.history ==> HasTicket(s.tickets, e.ticketId))
    && (forall a :: a in s.attachments ==> HasTicket(s.tickets, a.ticketId))
  }

  predicate TicketsValid(s: Store) {
    TicketRowsValid(s) && ClosingValid(s) && RefsValid(s)
  }

  predicate Valid(s: Store) {
    UsersValid(s) && TicketsValid(s)
  }

  lemma EmptyStoreValid()
    ensures Valid(EmptyStore)
  {
  }

  // ---------------------------------------------------------------------------------------
  // Preservation by the store primitives

  /** A successful insert keeps the user invariant: the unique constraints and the id sequence
      are exactly what it needs. */
  lemma InsertUserKeepsValid(s: Store, row: User)
    requires Valid(s) && InsertUser(s, row).Success?
    ensures Valid(InsertUser(s, row).value.0)
  {
    var (s', u) := InsertUser(s, row).value;
    assert s'.tickets == s.tickets && s'.history == s.history;
    forall i | 0 <= i < |s'.users| ensures 1 <= s'.users[i].id < s'.nextUserId {
      if i < |s.users| {
        assert s'.users[i] == s.users[i];
      }
    }
    forall i, j | 0 <= i < |s'.users| && 0 <= j < |s'.users| && i != j
      ensures s'.users[i].id != s'.users[j].id && !Clash(s'.users[i], s'.users[j])
    {
      if i == |s.users| {
        assert !Clash(u, s.users[j]);
      } else if j == |s.users| {
        assert !Clash(u, s.users[i]);
      }
    }
  }

  /** Replacing a user with a row that keeps its id keeps the user invariant. */
  lemma ReplaceUserKeepsValid(s: Store, i: nat, u: User)
    requires Valid(s) && i < |s.users| && u.id == s.users[i].id
    requires ReplaceUser(s, i, u).Success?
    ensures Valid(ReplaceUser(s, i, u).value)
  {
    var s' := ReplaceUser(s, i, u).value;
    forall a, b | 0 <= a < |s'.users| && 0 <= b < |s'.users| && a != b
      ensures s'.users[a].id != s'.users[b].id && !Clash(s'.users[a], s'.users[b])
    {
      if a == i {
        assert !Clash(u, s.users[b]);
      } else if b == i {
        assert !Clash(u, s.users[a]);
      }
    }
  }

  /** A new ticket row that is not closed and has no close time keeps the ticket invariant:
      its id is fresh, so no history entry is about it yet. */
  lemma InsertTicketKeepsValid(s: Store, row: Ticket)
    requires Valid(s) && InsertTicket(s, row).Success?
    requires row.status != Closed && row.closedAt.None?
    ensures Valid(InsertTicket(s, row).value.0)
  {
    var t := row.(id := s.nextTicketId);
    AppendTicketRows(s, t);
    AppendTicketClosing(s, t);
    AppendTicketRefs(s, t);
  }

  lemma AppendTicketRows(s: Store, t: Ticket)
    requires TicketRowsValid(s) && t.id == s.nextTicketId && !NumberTaken(s.tickets, t.number)
    ensures TicketRowsValid(s.(tickets := s.tickets + [t], nextTicketId := s.nextTicketId + 1))
  {
    var s' := s.(tickets := s.tickets + [t], nextTicketId := s.nextTicketId + 1);
    forall i | 0 <= i < |s'.tickets| ensures 1 <= s'.tickets[i].id < s'.nextTicketId {
      if i < |s.tickets| {
        assert s'.tickets[i] == s.tickets[i];
      }
    }
    forall i, j | 0 <= i < |s'.tickets| && 0 <= j < |s'.tickets| && i != j
      ensures s'.tickets[i].id != s'.tickets[j].id && s'.tickets[i].number != s'.tickets[j].number
    {
      if i == |s.tickets| {
        assert s'.tickets[j] == s.tickets[j];
      } else if j == |s.tickets| {
        assert s'.tickets[i] == s.tickets[i];
      }
    }
  }

  lemma AppendTicketClosing(s: Store, t: Ticket)
    requires TicketRowsValid(s) && ClosingValid(s) && RefsValid(s)
    requires t.id == s.nextTicketId && t.status != Closed && t.closedAt.None?
    ensures ClosingValid(s.(tickets := s.tickets + [t], nextTicketId := s.nextTicketId + 1))
  {
    var s' := s.(tickets := s.tickets + [t], nextTicketId := s.nextTicketId + 1);
    forall e | e in s.history ensures e.ticketId != t.id {
      var w :| w in s.tickets && w.id == e.ticketId;
      var k :| 0 <= k < |s.tickets| && s.tickets[k] == w;
    }
    assert !ClosingRecorded(s.history, t.id);
    forall i | 0 <= i < |s'.tickets|
      ensures s'.tickets[i].closedAt.Some? <==> ClosingRecorded(s'.history, s'.tickets[i].id)
    {
      if i < |s.tickets| {
        assert s'.tickets[i] == s.tickets[i];
      }
    }
  }

  lemma AppendTicketRefs(s: Store, t: Ticket)
    requires RefsValid(s)
    ensures RefsValid(s.(tickets := s.tickets + [t], nextTicketId := s.nextTicketId + 1))
  {
    var s' := s.(tickets := s.tickets + [t], nextTicketId := s.nextTicketId + 1);
    forall id | HasTicket(s.tickets, id) ensures HasTicket(s'.tickets, id) {
      var w :| w in s.tickets && w.id == id;
      assert w in s'.tickets;
    }
  }

  /** Appending a history entry about an existing ticket that does not record a closing keeps
      the ticket invariant. */
  lemma RecordHistoryKeepsValid(s: Store, ticketId: nat, userId: nat, action: string,
                                oldValue: Option<string>, newValue: Option<string>)
    requires Valid(s) && HasTicket(s.tickets, ticketId)
    requires action != ChangedAction("status") || newValue != Some(StatusName(Closed))
    ensures Valid(RecordHistory(s, ticketId, userId, action, oldValue, newValue))
  {
    var s' := RecordHistory(s, ticketId, userId, action, oldValue, newValue);
    forall i | 0 <= i < |s'.tickets|
      ensures s'.tickets[i].closedAt.Some? <==> ClosingRecorded(s'.history, s'.tickets[i].id)
    {
      var id := s.tickets[i].id;
      if ClosingRecorded(s'.history, id) {
        var e :| e in s'.history && e.ticketId == id && e.action == ChangedAction("status")
                 && e.newValue == Some(StatusName(Closed));
        assert e in s.history;
      }
    }
  }
}
