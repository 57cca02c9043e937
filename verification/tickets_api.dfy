/** The ticket handlers: create, list, view, update, comment and assign. Each takes the store and
    the authenticated caller and returns the new store with its response, or the error it
    raises; a failed handler writes nothing. The clock is a parameter: the current year for
    numbering and the current time for the close stamp. */
module TicketsApi {
  import opened Base
  import opened PyText
  import opened TicketSchemas
  import opened Models
  import opened Numbering

  const CreatedAction: string := "created"
  const CommentedAction: string := "commented"
  const AssignedAction: string := "assigned"

  /** The text the `created` history entry carries before the title. */
  const CreatedNotePrefix: string := "Заявка создана: "

  /** `str()` of an optional text value: null renders as `None`. */
  function OptText(o: Option<string>): string {
    match o
    case None => "None"
    case Some(v) => v
  }

  /** `str()` of an optional integer value. */
  function OptInt(o: Option<int>): string {
    match o
    case None => "None"
    case Some(v) => IntToStr(v)
  }

  // ---------------------------------------------------------------------------------------
  // create_ticket

  /** `create_ticket`: the ticket gets the year's next number, the request's fields, status
      `new`, no assignee, no close time and the caller as creator; one `created` entry is
      written. The unique number column rejects the insert when
      the number is already in use. */
  function CreateTicket(s: Store, caller: User, data: TicketCreate, year: nat): (r: Result<(Store, Ticket)>)
    ensures r.Failure? <==> NumberTaken(s.tickets, NextNumber(s.tickets, year))
    ensures r.Failure? ==> r.error == IntegrityViolation
    ensures r.Success? ==>
      var (s', t) := r.value;
      && t == Ticket(s.nextTicketId, NextNumber(s.tickets, year), data.title, data.description, data.category,
                     caller.id, data.location, data.equipmentType, data.priority, New, None, None)
      && ParseTicketNumber(t.number) == Some((year, CountYear(s.tickets, year) + 1))
      && CountYear(s'.tickets, year) == CountYear(s.tickets, year) + 1
      && s' == s.(tickets := s.tickets + [t], nextTicketId := s.nextTicketId + 1,
                  history := s.history + [HistoryEntry(s.nextHistoryId, t.id, caller.id, CreatedAction,
                                                       None, Some(CreatedNotePrefix + data.title))],
                  nextHistoryId := s.nextHistoryId + 1)
  {
    var number := NextNumber(s.tickets, year);
    var row := Ticket(0, number, data.title, data.description, data.category, caller.id,
                      data.location, data.equipmentType, data.priority, New);
    var ins := InsertTicket(s, row);
    if ins.Failure? then Failure(ins.error)
    else
      var t := ins.value.1;
      var s' := RecordHistory(ins.value.0, t.id, caller.id, CreatedAction, None, Some(CreatedNotePrefix + data.title));
      CreatedRow(s, caller, data, year, t, s');
      Success((s', t))
  }

  /** The store and row a successful create leaves. */
  lemma CreatedRow(s: Store, caller: User, data: TicketCreate, year: nat, t: Ticket, s': Store)
    requires t == Ticket(s.nextTicketId, NextNumber(s.tickets, year), data.title, data.description, data.category,
                         caller.id, data.location, data.equipmentType, data.priority, New, None, None)
    requires s' == RecordHistory(s.(tickets := s.tickets + [t], nextTicketId := s.nextTicketId + 1),
                                 t.id, caller.id, CreatedAction, None, Some(CreatedNotePrefix + data.title))
    ensures ParseTicketNumber(t.number) == Some((year, CountYear(s.tickets, year) + 1))
    ensures CountYear(s'.tickets, year) == CountYear(s.tickets, year) + 1
    ensures s' == s.(tickets := s.tickets + [t], nextTicketId := s.nextTicketId + 1,
                     history := s.history + [HistoryEntry(s.nextHistoryId, t.id, caller.id, CreatedAction,
                                                          None, Some(CreatedNotePrefix + data.title))],
                     nextHistoryId := s.nextHistoryId + 1)
  {
    NextNumberCounts(s.tickets, t, year);
  }

  // ---------------------------------------------------------------------------------------
  // get_tickets

  /** The query parameters of the list endpoint. Pagination and ordering are not modelled. */
  datatype TicketQuery = TicketQuery(
    status: Option<string>,
    category: Option<string>,
    priority: Option<string>,
    assignedToMe: bool,
    createdByMe: bool)

  /** The conjunction of the filters the request supplies: a text filter applies when it is
      non-empty, and a caller whose role is `user` sees only the tickets it created. */
  predicate Listed(t: Ticket, caller: User, q: TicketQuery) {
    && Matches(t, caller, q)
    && (IsPlainUser(caller.role) ==> t.creatorId == caller.id)
  }

  /** The filters of the query string alone. */
  predicate Matches(t: Ticket, caller: User, q: TicketQuery) {
    && (Truthy(q.status) ==> StatusName(t.status) == q.status.value)
    && (Truthy(q.category) ==> CategoryName(t.category) == q.category.value)
    && (Truthy(q.priority) ==> PriorityName(t.priority) == q.priority.value)
    && (q.assignedToMe ==> t.assignedTo == Some(caller.id as int))
    && (q.createdByMe ==> t.creatorId == caller.id)
  }

  /** `query.where(...)` applied only when its guard holds. */
  function WhereIf(ts: seq<Ticket>, guard: bool, p: Ticket -> bool): (r: seq<Ticket>)
    ensures forall t :: t in r <==> t in ts && (guard ==> p(t))
  {
    if guard then Filter(ts, p) else ts
  }

  /** `get_tickets`: one `where` clause per supplied filter, then the role restriction. */
  function GetTickets(s: Store, caller: User, q: TicketQuery): (r: seq<Ticket>)
    ensures forall t :: t in r <==> t in s.tickets && Listed(t, caller, q)
  {
    WhereIf(Where(s.tickets, caller, q), IsPlainUser(caller.role), (t: Ticket) => t.creatorId == caller.id)
  }

  /** The `where` clauses of the query string, in the handler's order. */
  function Where(ts: seq<Ticket>, caller: User, q: TicketQuery): (r: seq<Ticket>)
    ensures forall t :: t in r <==> t in ts && Matches(t, caller, q)
  {
    var st := q.status.GetOr("");
    var ca := q.category.GetOr("");
    var pr := q.priority.GetOr("");
    var ts1 := WhereIf(ts, Truthy(q.status), (t: Ticket) => StatusName(t.status) == st);
    var ts2 := WhereIf(ts1, Truthy(q.category), (t: Ticket) => CategoryName(t.category) == ca);
    var ts3 := WhereIf(ts2, Truthy(q.priority), (t: Ticket) => PriorityName(t.priority) == pr);
    var ts4 := WhereIf(ts3, q.assignedToMe, (t: Ticket) => t.assignedTo == Some(caller.id as int));
    WhereIf(ts4, q.createdByMe, (t: Ticket) => t.creatorId == caller.id)
  }

  /** A caller whose role is `user` is shown only its own tickets, whatever the filters. */
  lemma PlainUserListsOwn(s: Store, caller: User, q: TicketQuery, t: Ticket)
    requires IsPlainUser(caller.role) && t in GetTickets(s, caller, q)
    ensures t.creatorId == caller.id
  {
  }

  // ---------------------------------------------------------------------------------------
  // get_ticket

  /** `TicketDetailResponse`: the ticket with all of its comments, history and attachments. */
  datatype TicketDetail = TicketDetail(
    ticket: Ticket,
    comments: seq<Comment>,
    history: seq<HistoryEntry>,
    attachments: seq<Attachment>)

  /** A caller whose role is `user` may act only on tickets it created; any other role may act
      on every ticket. */
  predicate MayAccess(caller: User, t: Ticket) {
    !IsPlainUser(caller.role) || t.creatorId == caller.id
  }

  /** `get_ticket`: NotFound for an absent id, Forbidden for a `user` who did not create it;
      otherwise every comment (internal ones included), entry and attachment of the ticket. */
  function GetTicket(s: Store, caller: User, id: int): (r: Result<TicketDetail>)
    ensures TicketIndex(s.tickets, id).None? <==> r == Failure(NotFound)
    ensures r == Failure(Forbidden) <==>
      TicketIndex(s.tickets, id).Some? && !MayAccess(caller, s.tickets[TicketIndex(s.tickets, id).value])
    ensures r.Failure? ==> r.error == NotFound || r.error == Forbidden
    ensures r.Success? ==>
      && r.value.ticket in s.tickets && r.value.ticket.id == id
      && (forall c :: c in r.value.comments <==> c in s.comments && c.ticketId == id)
      && (forall e :: e in r.value.history <==> e in s.history && e.ticketId == id)
      && (forall a :: a in r.value.attachments <==> a in s.attachments && a.ticketId == id)
  {
    match TicketIndex(s.tickets, id)
    case None => Failure(NotFound)
    case Some(i) =>
      var t := s.tickets[i];
      if !MayAccess(caller, t) then Failure(Forbidden)
      else
        Success(TicketDetail(
          t,
          Filter(s.comments, (c: Comment) => c.ticketId == t.id),
          Filter(s.history, (e: HistoryEntry) => e.ticketId == t.id),
          Filter(s.attachments, (a: Attachment) => a.ticketId == t.id)))
  }

  // ---------------------------------------------------------------------------------------
  // update_ticket: the per-field diff

  /** The fields of `TicketUpdate`. */
  datatype TicketField = Title | Description | CategoryField | PriorityField | StatusField
                       | AssignedTo | Location | EquipmentType

  /** The order `model_dump` yields them in. */
  const UpdateOrder: seq<TicketField> :=
    [Title, Description, CategoryField, PriorityField, StatusField, AssignedTo, Location, EquipmentType]

  function FieldName(f: TicketField): string {
    match f
    case Title => "title"
    case Description => "description"
    case CategoryField => "category"
    case PriorityField => "priority"
    case StatusField => "status"
    case AssignedTo => "assigned_to"
    case Location => "location"
    case EquipmentType => "equipment_type"
  }

  /** The request carries a non-null value for the field: the loop does not skip it. */
  predicate Requested(u: TicketUpdate, f: TicketField) {
    match f
    case Title => u.title.Some?
    case Description => u.description.Some?
    case CategoryField => u.category.Some?
    case PriorityField => u.priority.Some?
    case StatusField => u.status.Some?
    case AssignedTo => u.assignedTo.Some?
    case Location => u.location.Some?
    case EquipmentType => u.equipmentType.Some?
  }

  /** The request carries a value for the field that differs from the ticket's. */
  predicate Changes(t: Ticket, u: TicketUpdate, f: TicketField) {
    match f
    case Title => u.title.Some? && t.title != u.title.value
    case Description => u.description.Some? && t.description != u.description
    case CategoryField => u.category.Some? && t.category != u.category.value
    case PriorityField => u.priority.Some? && t.priority != u.priority.value
    case StatusField => u.status.Some? && t.status != u.status.value
    case AssignedTo => u.assignedTo.Some? && t.assignedTo != u.assignedTo
    case Location => u.location.Some? && t.location != u.location
    case EquipmentType => u.equipmentType.Some? && t.equipmentType != u.equipmentType
  }

  /** The two tickets hold the same value in the field. */
  predicate SameField(a: Ticket, b: Ticket, f: TicketField) {
    match f
    case Title => a.title == b.title
    case Description => a.description == b.description
    case CategoryField => a.category == b.category
    case PriorityField => a.priority == b.priority
    case StatusField => a.status == b.status
    case AssignedTo => a.assignedTo == b.assignedTo
    case Location => a.location == b.location
    case EquipmentType => a.equipmentType == b.equipmentType
  }

  /** `str(getattr(ticket, field))`. */
  function Shown(t: Ticket, f: TicketField): string {
    match f
    case Title => t.title
    case Description => OptText(t.description)
    case CategoryField => CategoryName(t.category)
    case PriorityField => PriorityName(t.priority)
    case StatusField => StatusName(t.status)
    case AssignedTo => OptInt(t.assignedTo)
    case Location => OptText(t.location)
    case EquipmentType => OptText(t.equipmentType)
  }

  /** `str(value)` of the requested value. */
  function RequestedShown(u: TicketUpdate, f: TicketField): string
    requires Requested(u, f)
  {
    match f
    case Title => u.title.value
    case Description => u.description.value
    case CategoryField => CategoryName(u.category.value)
    case PriorityField => PriorityName(u.priority.value)
    case StatusField => StatusName(u.status.value)
    case AssignedTo => IntToStr(u.assignedTo.value)
    case Location => u.location.value
    case EquipmentType => u.equipmentType.value
  }

  /** `setattr(ticket, field, value)`: afterwards the field no longer differs from the request
      and reads as the requested value; every other field, the id, number, creator and close
      time are untouched. */
  function SetField(t: Ticket, u: TicketUpdate, f: TicketField): (t': Ticket)
    requires Requested(u, f)
    ensures !Changes(t', u, f) && Shown(t', f) == RequestedShown(u, f)
    ensures forall g :: g != f ==> Shown(t', g) == Shown(t, g) && Changes(t', u, g) == Changes(t, u, g)
    ensures t'.id == t.id && t'.number == t.number && t'.creatorId == t.creatorId && t'.closedAt == t.closedAt
  {
    match f
    case Title => t.(title := u.title.value)
    case Description => t.(description := u.description)
    case CategoryField => t.(category := u.category.value)
    case PriorityField => t.(priority := u.priority.value)
    case StatusField => t.(status := u.status.value)
    case AssignedTo => t.(assignedTo := u.assignedTo)
    case Location => t.(location := u.location)
    case EquipmentType => t.(equipmentType := u.equipmentType)
  }

  /** The ticket an update should leave: every field the request carries a value for takes
      that value, every other field keeps its own. */
  function Merge(t: Ticket, u: TicketUpdate): (r: Ticket)
    ensures forall f :: !Changes(r, u, f)
    ensures forall f :: !Requested(u, f) ==> SameField(r, t, f)
    ensures r.id == t.id && r.number == t.number && r.creatorId == t.creatorId && r.closedAt == t.closedAt
  {
    t.(title := u.title.GetOr(t.title),
       description := if u.description.Some? then u.description else t.description,
       category := u.category.GetOr(t.category),
       priority := u.priority.GetOr(t.priority),
       status := u.status.GetOr(t.status),
       assignedTo := if u.assignedTo.Some? then u.assignedTo else t.assignedTo,
       location := if u.location.Some? then u.location else t.location,
       equipmentType := if u.equipmentType.Some? then u.equipmentType else t.equipmentType)
  }

  /** The request with only the fields in `fs` kept. */
  function Restrict(u: TicketUpdate, fs: seq<TicketField>): TicketUpdate {
    TicketUpdate(
      if Title in fs then u.title else None,
      if Description in fs then u.description else None,
      if CategoryField in fs then u.category else None,
      if PriorityField in fs then u.priority else None,
      if StatusField in fs then u.status else None,
      if AssignedTo in fs then u.assignedTo else None,
      if Location in fs then u.location else None,
      if EquipmentType in fs then u.equipmentType else None)
  }

  /** Visiting field `f` first and then the rest is the same as merging all of them. */
  lemma MergeStep(t: Ticket, u: TicketUpdate, f: TicketField, rest: seq<TicketField>)
    ensures Merge(if Changes(t, u, f) then SetField(t, u, f) else t, Restrict(u, rest))
         == Merge(t, Restrict(u, [f] + rest))
  {
    match f
    case Title =>
    case Description =>
    case CategoryField =>
    case PriorityField =>
    case StatusField =>
    case AssignedTo =>
    case Location =>
    case EquipmentType =>
  }

  /** The loop of `update_ticket` over the fields `fs`: a field whose requested value differs
      from the ticket's current one is set and logged as `<field>_changed` with the old and the
      new value as text. The result is the entries written, with consecutive ids from `nextId`
      as `create_history_entry` allocates them, and the ticket, which ends as the merge of the
      request. */
  function ApplyDiff(t: Ticket, u: TicketUpdate, userId: nat, fs: seq<TicketField>, nextId: nat): (r: (seq<HistoryEntry>, Ticket))
    ensures r.1 == Merge(t, Restrict(u, fs))
    ensures |r.0| <= |fs|
    ensures forall k :: 0 <= k < |r.0| ==> r.0[k].id == nextId + k && r.0[k].ticketId == t.id && r.0[k].userId == userId
    decreases |fs|
  {
    if |fs| == 0 then
      assert Restrict(u, fs) == TicketUpdate(None, None, None, None, None, None, None, None);
      ([], t)
    else
      var f := fs[0];
      MergeStep(t, u, f, fs[1..]);
      assert [f] + fs[1..] == fs;
      if Changes(t, u, f) then
        var e := HistoryEntry(nextId, t.id, userId, ChangedAction(FieldName(f)), Some(Shown(t, f)), Some(RequestedShown(u, f)));
        var (es, t') := ApplyDiff(SetField(t, u, f), u, userId, fs[1..], nextId + 1);
        ([e] + es, t')
      else
        ApplyDiff(t, u, userId, fs[1..], nextId)
  }

  /** The entries an update over `fs` should write, judged against the ticket as it was before
      the update: one per field whose requested value differs, in field order, with
      consecutive ids. */
  function DiffEntries(t: Ticket, u: TicketUpdate, userId: nat, fs: seq<TicketField>, nextId: nat): (es: seq<HistoryEntry>)
    ensures |es| <= |fs|
    ensures forall e :: e in es ==>
      && e.ticketId == t.id && e.userId == userId
      && exists f :: f in fs && Changes(t, u, f) && e.action == ChangedAction(FieldName(f))
                    && e.oldValue == Some(Shown(t, f)) && e.newValue == Some(RequestedShown(u, f))
    decreases |fs|
  {
    if |fs| == 0 then []
    else
      var f := fs[0];
      var rest := DiffEntries(t, u, userId, fs[1..], if Changes(t, u, f) then nextId + 1 else nextId);
      if Changes(t, u, f) then
        [HistoryEntry(nextId, t.id, userId, ChangedAction(FieldName(f)), Some(Shown(t, f)), Some(RequestedShown(u, f)))] + rest
      else rest
  }

  predicate Distinct(fs: seq<TicketField>) {
    forall i, j :: 0 <= i < j < |fs| ==> fs[i] != fs[j]
  }

  /** Entries judged against the original ticket do not change when a field outside `fs` is
      set first. */
  lemma {:induction false} DiffEntriesFrame(t: Ticket, u: TicketUpdate, userId: nat, f: TicketField,
                                            fs: seq<TicketField>, nextId: nat)
    requires Requested(u, f) && f !in fs
    ensures DiffEntries(SetField(t, u, f), u, userId, fs, nextId) == DiffEntries(t, u, userId, fs, nextId)
    decreases |fs|
  {
    if |fs| > 0 {
      var g := fs[0];
      assert g != f;
      DiffEntriesFrame(t, u, userId, f, fs[1..], if Changes(t, u, g) then nextId + 1 else nextId);
    }
  }

  lemma DistinctHead(fs: seq<TicketField>)
    requires Distinct(fs) && |fs| > 0
    ensures fs[0] !in fs[1..] && Distinct(fs[1..])
  {
    forall j | 0 <= j < |fs[1..]| ensures fs[1..][j] != fs[0] {
      assert fs[1..][j] == fs[j + 1];
    }
  }

  /** Because each field is visited once, comparing with the running ticket, as the loop does,
      writes exactly the entries a comparison with the original ticket calls for. */
  lemma {:induction false} ApplyDiffEntries(t: Ticket, u: TicketUpdate, userId: nat, fs: seq<TicketField>, nextId: nat)
    requires Distinct(fs)
    ensures ApplyDiff(t, u, userId, fs, nextId).0 == DiffEntries(t, u, userId, fs, nextId)
    decreases |fs|
  {
    if |fs| > 0 {
      DistinctHead(fs);
      var f := fs[0];
      if Changes(t, u, f) {
        ApplyDiffEntries(SetField(t, u, f), u, userId, fs[1..], nextId + 1);
        DiffEntriesFrame(t, u, userId, f, fs[1..], nextId + 1);
      } else {
        ApplyDiffEntries(t, u, userId, fs[1..], nextId);
      }
    }
  }

  // ---------------------------------------------------------------------------------------
  // update_ticket

  /** `update_ticket`: NotFound for an absent id, Forbidden for a `user` who did not create it;
      otherwise the diff over the request's fields, then the close stamp: set to `now` when the
      request asks for `closed` and the ticket has no close time yet, and never overwritten. */
  function UpdateTicket(s: Store, caller: User, id: int, u: TicketUpdate, now: nat): (r: Result<(Store, Ticket)>)
    ensures TicketIndex(s.tickets, id).None? <==> r == Failure(NotFound)
    ensures r == Failure(Forbidden) <==>
      TicketIndex(s.tickets, id).Some? && !MayAccess(caller, s.tickets[TicketIndex(s.tickets, id).value])
    ensures r.Failure? ==> r.error == NotFound || r.error == Forbidden
    ensures r.Success? ==>
      var i := TicketIndex(s.tickets, id).value;
      var t := s.tickets[i];
      var (s', t') := r.value;
      && s'.tickets == s.tickets[i := t']
      && t'.id == t.id && t'.number == t.number && t'.creatorId == t.creatorId
      && t'.title == Merge(t, u).title && t'.status == Merge(t, u).status
      && (t.closedAt.Some? ==> t'.closedAt == t.closedAt)
      && (t.closedAt.None? ==> t'.closedAt == (if u.status == Some(Closed) then Some(now) else None))
      && s.history <= s'.history && s'.nextHistoryId == s.nextHistoryId + (|s'.history| - |s.history|)
      && s' == s.(tickets := s.tickets[i := t'], history := s'.history, nextHistoryId := s'.nextHistoryId)
  {
    match TicketIndex(s.tickets, id)
    case None => Failure(NotFound)
    case Some(i) =>
      var t := s.tickets[i];
      if !MayAccess(caller, t) then Failure(Forbidden)
      else Success(UpdateAt(s, i, caller.id, u, now))
  }

  /** The write `update_ticket` performs on the ticket at index `i` once access is granted. */
  function UpdateAt(s: Store, i: nat, userId: nat, u: TicketUpdate, now: nat): (Store, Ticket)
    requires i < |s.tickets|
  {
    var d := ApplyDiff(s.tickets[i], u, userId, UpdateOrder, s.nextHistoryId);
    var t2 := StampClose(d.1, u, now);
    (WriteUpdate(s, i, d.0, t2), t2)
  }

  /** The commit of an update: the entries are appended, the history sequence advances past
      them and the ticket row is replaced. */
  function WriteUpdate(s: Store, i: nat, es: seq<HistoryEntry>, t: Ticket): Store
    requires i < |s.tickets|
  {
    s.(history := s.history + es, nextHistoryId := s.nextHistoryId + |es|, tickets := s.tickets[i := t])
  }

  /** A request that closes a ticket without a close time stamps it with the current time. */
  function StampClose(t: Ticket, u: TicketUpdate, now: nat): (r: Ticket)
    ensures r == t.(closedAt := r.closedAt)
    ensures t.closedAt.Some? ==> r.closedAt == t.closedAt
    ensures t.closedAt.None? ==> (r.closedAt.Some? <==> u.status == Some(Closed))
    ensures r.closedAt.Some? && t.closedAt.None? ==> r.closedAt == Some(now)
  {
    if u.status == Some(Closed) && t.closedAt.None? then t.(closedAt := Some(now)) else t
  }

  // ---------------------------------------------------------------------------------------
  // add_comment

  /** The text stored in the comment's internal flag. */
  function EncodeFlag(b: bool): string {
    if b then "true" else "false"
  }

  /** Reading the stored flag back as the boolean the comment response carries. */
  function DecodeFlag(s: string): (r: Option<bool>)
    ensures r.Some? ==> EncodeFlag(r.value) == s
  {
    if s == "true" then Some(true) else if s == "false" then Some(false) else None
  }

  /** `comment_text[:100]`. */
  function Snapshot(text: string): (r: string)
    ensures |r| == if |text| < 100 then |text| else 100
    ensures r <= text
  {
    if |text| <= 100 then text else text[..100]
  }

  /** `add_comment`: NotFound for an absent ticket; Forbidden for an internal comment by a role
      other than engineer or admin. Otherwise one comment and one `commented` entry holding the
      first 100 characters. The text is taken as it comes: an empty text is stored too. */
  function AddComment(s: Store, caller: User, ticketId: int, text: string, isInternal: bool): (r: Result<(Store, Comment)>)
    ensures TicketIndex(s.tickets, ticketId).None? <==> r == Failure(NotFound)
    ensures r == Failure(Forbidden) <==>
      TicketIndex(s.tickets, ticketId).Some? && isInternal && !IsStaff(caller.role)
    ensures r.Failure? ==> r.error == NotFound || r.error == Forbidden
    ensures r.Success? ==>
      var (s', c) := r.value;
      && c == Comment(s.nextCommentId, c.ticketId, caller.id, text, EncodeFlag(isInternal))
      && c.ticketId == ticketId
      && DecodeFlag(c.isInternal) == Some(isInternal)
      && s'.comments == s.comments + [c] && s'.nextCommentId == s.nextCommentId + 1
      && s'.history == s.history + [HistoryEntry(s.nextHistoryId, c.ticketId, caller.id, CommentedAction,
                                                 None, Some(Snapshot(text)))]
      && s'.nextHistoryId == s.nextHistoryId + 1
      && s'.users == s.users && s'.tickets == s.tickets && s'.attachments == s.attachments
      && s'.nextTicketId == s.nextTicketId && s'.nextUserId == s.nextUserId
  {
    match TicketIndex(s.tickets, ticketId)
    case None => Failure(NotFound)
    case Some(i) =>
      if isInternal && !IsStaff(caller.role) then Failure(Forbidden)
      else
        var tid := s.tickets[i].id;
        var c := Comment(s.nextCommentId, tid, caller.id, text, EncodeFlag(isInternal));
        var s1 := s.(comments := s.comments + [c], nextCommentId := s.nextCommentId + 1);
        Success((RecordHistory(s1, tid, caller.id, CommentedAction, None, Some(Snapshot(text))), c))
  }

  // ---------------------------------------------------------------------------------------
  // assign_ticket

  /** `assign_ticket`: Forbidden for a role other than engineer or admin, before the ticket is
      looked up; then NotFound for an absent ticket. Otherwise the assignee is the given
      engineer, or the caller when none is given; a `new` ticket becomes `in_progress` and any
      other status stays; one `assigned` entry records the old and the new assignee as text,
      even when they are the same. */
  function AssignTicket(s: Store, caller: User, ticketId: int, engineerId: Option<int>): (r: Result<(Store, Ticket)>)
    ensures !IsStaff(caller.role) ==> r == Failure(Forbidden)
    ensures IsStaff(caller.role) && TicketIndex(s.tickets, ticketId).None? ==> r == Failure(NotFound)
    ensures IsStaff(caller.role) && TicketIndex(s.tickets, ticketId).Some? ==> r.Success?
    ensures r.Success? ==>
      var i := TicketIndex(s.tickets, ticketId).value;
      var t := s.tickets[i];
      var (s', t') := r.value;
      var assignee := if engineerId.Some? then engineerId.value else caller.id as int;
      && t' == t.(assignedTo := Some(assignee), status := t'.status)
      && (t.status == New ==> t'.status == InProgress)
      && (t.status != New ==> t'.status == t.status)
      && s' == s.(tickets := s.tickets[i := t'],
                  history := s.history + [HistoryEntry(s.nextHistoryId, t.id, caller.id, AssignedAction,
                                                       Some(OptInt(t.assignedTo)), Some(IntToStr(assignee)))],
                  nextHistoryId := s.nextHistoryId + 1)
  {
    if !IsStaff(caller.role) then Failure(Forbidden)
    else match TicketIndex(s.tickets, ticketId)
      case None => Failure(NotFound)
      case Some(i) =>
        var t := s.tickets[i];
        var assignee := engineerId.GetOr(caller.id);
        var t' := t.(assignedTo := Some(assignee), status := if t.status == New then InProgress else t.status);
        var s1 := s.(tickets := s.tickets[i := t']);
        Success((RecordHistory(s1, t.id, caller.id, AssignedAction, Some(OptInt(t.assignedTo)), Some(IntToStr(assignee))), t'))
  }
}
