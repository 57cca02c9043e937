/** What the ticket handlers guarantee across calls: the update diff logs exactly the changed
    fields, repeating an update changes nothing, the close stamp and the history stay in step,
    the store invariants and the numbering invariant survive every handler, and what the list
    shows a caller the detail view lets that caller open. */
module TicketsProperties {
  import opened Base
  import opened PyText
  import opened TicketSchemas
  import opened Models
  import opened Numbering
  import opened TicketsApi

  // ---------------------------------------------------------------------------------------
  // Field names and action tags

  /** The field a `TicketUpdate` key names. */
  function ParseFieldName(name: string): (r: Option<TicketField>)
    ensures r.Some? ==> FieldName(r.value) == name
  {
    if name == "title" then Some(Title)
    else if name == "description" then Some(Description)
    else if name == "category" then Some(CategoryField)
    else if name == "priority" then Some(PriorityField)
    else if name == "status" then Some(StatusField)
    else if name == "assigned_to" then Some(AssignedTo)
    else if name == "location" then Some(Location)
    else if name == "equipment_type" then Some(EquipmentType)
    else None
  }

  lemma FieldNameRoundTrip(f: TicketField)
    ensures ParseFieldName(FieldName(f)) == Some(f)
  {
  }

  /** Distinct fields are logged under distinct action tags. */
  lemma FieldActionInjective(f: TicketField, g: TicketField)
    requires ChangedAction(FieldName(f)) == ChangedAction(FieldName(g))
    ensures f == g
  {
    var a, b := FieldName(f), FieldName(g);
    assert |a| == |b|;
    assert a == ChangedAction(a)[..|a|];
    assert b == ChangedAction(b)[..|b|];
    FieldNameRoundTrip(f);
    FieldNameRoundTrip(g);
  }

  lemma UpdateOrderDistinct()
    ensures Distinct(UpdateOrder)
  {
  }

  // ---------------------------------------------------------------------------------------
  // The diff logs exactly the changed fields

  lemma DiffEntriesUnfold(t: Ticket, u: TicketUpdate, userId: nat, fs: seq<TicketField>, nextId: nat)
    requires |fs| > 0 && Changes(t, u, fs[0])
    ensures DiffEntries(t, u, userId, fs, nextId)
         == [HistoryEntry(nextId, t.id, userId, ChangedAction(FieldName(fs[0])), Some(Shown(t, fs[0])), Some(RequestedShown(u, fs[0])))]
            + DiffEntries(t, u, userId, fs[1..], nextId + 1)
  {
  }

  /** Every field in `fs` whose requested value differs has its entry. */
  lemma {:induction false} DiffEntryFor(t: Ticket, u: TicketUpdate, userId: nat, fs: seq<TicketField>,
                                        nextId: nat, f: TicketField)
    requires f in fs && Changes(t, u, f)
    ensures exists e :: (e in DiffEntries(t, u, userId, fs, nextId)
      && e.ticketId == t.id && e.userId == userId && e.action == ChangedAction(FieldName(f))
      && e.oldValue == Some(Shown(t, f)) && e.newValue == Some(RequestedShown(u, f)))
    decreases |fs|
  {
    var g := fs[0];
    var next' := if Changes(t, u, g) then nextId + 1 else nextId;
    if g == f {
      DiffEntriesUnfold(t, u, userId, fs, nextId);
      var e := DiffEntries(t, u, userId, fs, nextId)[0];
      assert e in DiffEntries(t, u, userId, fs, nextId);
    } else {
      assert f in fs[1..];
      DiffEntryFor(t, u, userId, fs[1..], next', f);
      var e :| e in DiffEntries(t, u, userId, fs[1..], next')
        && e.ticketId == t.id && e.userId == userId && e.action == ChangedAction(FieldName(f))
        && e.oldValue == Some(Shown(t, f)) && e.newValue == Some(RequestedShown(u, f));
      if Changes(t, u, g) {
        DiffEntriesUnfold(t, u, userId, fs, nextId);
      }
      assert e in DiffEntries(t, u, userId, fs, nextId);
    }
  }

  /** A field of the update gets a `<field>_changed` entry if and only if the request carries a
      value for it that differs from the ticket's; the entry holds the old and the new value as
      text. */
  lemma DiffLogsExactlyChanges(t: Ticket, u: TicketUpdate, userId: nat, fs: seq<TicketField>, nextId: nat, f: TicketField)
    requires f in fs
    ensures (exists e :: e in DiffEntries(t, u, userId, fs, nextId) && e.action == ChangedAction(FieldName(f)))
        <==> Changes(t, u, f)
    ensures forall e :: e in DiffEntries(t, u, userId, fs, nextId) && e.action == ChangedAction(FieldName(f)) ==>
      e.ticketId == t.id && e.userId == userId && e.oldValue == Some(Shown(t, f)) && e.newValue == Some(RequestedShown(u, f))
  {
    var es := DiffEntries(t, u, userId, fs, nextId);
    if Changes(t, u, f) {
      DiffEntryFor(t, u, userId, fs, nextId, f);
    }
    forall e | e in es && e.action == ChangedAction(FieldName(f))
      ensures Changes(t, u, f) && e.ticketId == t.id && e.userId == userId
           && e.oldValue == Some(Shown(t, f)) && e.newValue == Some(RequestedShown(u, f))
    {
      var g :| g in fs && Changes(t, u, g) && e.action == ChangedAction(FieldName(g))
               && e.oldValue == Some(Shown(t, g)) && e.newValue == Some(RequestedShown(u, g));
      FieldActionInjective(f, g);
    }
  }

  /** Entries about one ticket do not record a closing of any other. */
  lemma ClosingAppendOther(h: seq<HistoryEntry>, es: seq<HistoryEntry>, tid: nat, id: nat)
    requires forall e :: e in es ==> e.ticketId == tid
    requires id != tid
    ensures ClosingRecorded(h + es, id) <==> ClosingRecorded(h, id)
  {
    if ClosingRecorded(h + es, id) {
      var e :| e in h + es && e.ticketId == id && e.action == ChangedAction("status") && e.newValue == Some(StatusName(Closed));
      assert e in h;
    }
  }

  /** The only closing entry a diff can write is for a request asking for `closed`. */
  lemma DiffClosingOnlyOnRequest(t: Ticket, u: TicketUpdate, userId: nat, fs: seq<TicketField>, nextId: nat, e: HistoryEntry)
    requires StatusField in fs
    requires e in DiffEntries(t, u, userId, fs, nextId)
    requires e.action == ChangedAction("status") && e.newValue == Some(StatusName(Closed))
    ensures u.status == Some(Closed) && t.status != Closed
  {
    DiffLogsExactlyChanges(t, u, userId, fs, nextId, StatusField);
    assert FieldName(StatusField) == "status";
    assert Changes(t, u, StatusField);
    var v := u.status.value;
    assert e.newValue == Some(StatusName(v));
    assert v == Closed by {
      NamesRoundTrip(Hardware, Medium, v);
    }
  }

  /** The update records a closing for the ticket exactly when the request asks for `closed`
      and the ticket is not closed yet. */
  lemma DiffClosingEntry(h: seq<HistoryEntry>, t: Ticket, u: TicketUpdate, userId: nat, fs: seq<TicketField>, nextId: nat)
    requires StatusField in fs
    ensures ClosingRecorded(h + DiffEntries(t, u, userId, fs, nextId), t.id)
        <==> ClosingRecorded(h, t.id) || (u.status == Some(Closed) && t.status != Closed)
  {
    var es := DiffEntries(t, u, userId, fs, nextId);
    if u.status == Some(Closed) && t.status != Closed {
      DiffLogsExactlyChanges(t, u, userId, fs, nextId, StatusField);
      var e :| e in es && e.action == ChangedAction(FieldName(StatusField));
      assert e in h + es;
    }
    if ClosingRecorded(h + es, t.id) && !ClosingRecorded(h, t.id) {
      var e :| e in h + es && e.ticketId == t.id && e.action == ChangedAction("status") && e.newValue == Some(StatusName(Closed));
      DiffClosingOnlyOnRequest(t, u, userId, fs, nextId, e);
    }
  }

  // ---------------------------------------------------------------------------------------
  // update_ticket

  lemma AllFieldsListed(f: TicketField)
    ensures f in UpdateOrder
  {
  }

  lemma TicketIndexReplace(ts: seq<Ticket>, id: int, i: nat, t: Ticket)
    requires TicketIndex(ts, id) == Some(i) && t.id == ts[i].id
    ensures TicketIndex(ts[i := t], id) == Some(i)
  {
    var ts' := ts[i := t];
    assert ts'[i].id == id;
  }

  /** The ticket a successful update leaves: the merge of the request, then the close stamp. */
  function Updated(t: Ticket, u: TicketUpdate, now: nat): Ticket {
    StampClose(Merge(t, u), u, now)
  }

  /** The diff over all the fields of the request writes the entries judged against the
      original ticket and leaves the merge. */
  lemma ApplyDiffAll(t: Ticket, u: TicketUpdate, userId: nat, nextId: nat)
    ensures ApplyDiff(t, u, userId, UpdateOrder, nextId).0 == DiffEntries(t, u, userId, UpdateOrder, nextId)
    ensures ApplyDiff(t, u, userId, UpdateOrder, nextId).1 == Merge(t, u)
  {
    assert Restrict(u, UpdateOrder) == u;
    UpdateOrderDistinct();
    ApplyDiffEntries(t, u, userId, UpdateOrder, nextId);
  }

  /** The write of a successful update, stated against the original ticket: the entries for
      the changed fields are appended and the ticket is replaced by the merge of the request. */
  lemma UpdateAtUnfold(s: Store, i: nat, userId: nat, u: TicketUpdate, now: nat)
    requires i < |s.tickets|
    ensures UpdateAt(s, i, userId, u, now).1 == Updated(s.tickets[i], u, now)
    ensures UpdateAt(s, i, userId, u, now).0
         == WriteUpdate(s, i, DiffEntries(s.tickets[i], u, userId, UpdateOrder, s.nextHistoryId), Updated(s.tickets[i], u, now))
  {
    ApplyDiffAll(s.tickets[i], u, userId, s.nextHistoryId);
  }

  /** A successful update, written against the original ticket. */
  lemma UpdateUnfold(s: Store, caller: User, id: int, u: TicketUpdate, now: nat)
    requires UpdateTicket(s, caller, id, u, now).Success?
    ensures MayAccess(caller, s.tickets[TicketIndex(s.tickets, id).value])
    ensures UpdateTicket(s, caller, id, u, now).value == UpdateAt(s, TicketIndex(s.tickets, id).value, caller.id, u, now)
    ensures var i := TicketIndex(s.tickets, id).value;
      UpdateTicket(s, caller, id, u, now).value.1 == Updated(s.tickets[i], u, now)
    ensures var i := TicketIndex(s.tickets, id).value;
      var es := DiffEntries(s.tickets[i], u, caller.id, UpdateOrder, s.nextHistoryId);
      UpdateTicket(s, caller, id, u, now).value.0
      == s.(history := s.history + es, nextHistoryId := s.nextHistoryId + |es|, tickets := s.tickets[i := Updated(s.tickets[i], u, now)])
  {
    UpdateAtUnfold(s, TicketIndex(s.tickets, id).value, caller.id, u, now);
  }

  /** After an update the ticket holds every value the request carried and keeps every other
      field; only the close time may differ from that merge. */
  lemma UpdateSetsRequestedFields(s: Store, caller: User, id: int, u: TicketUpdate, now: nat)
    requires UpdateTicket(s, caller, id, u, now).Success?
    ensures var t := s.tickets[TicketIndex(s.tickets, id).value];
      var t' := UpdateTicket(s, caller, id, u, now).value.1;
      t' == Merge(t, u).(closedAt := t'.closedAt)
  {
    UpdateUnfold(s, caller, id, u, now);
  }

  /** The history an update writes: one `<field>_changed` entry for each field whose requested
      value differs from the ticket's, with the old and the new value as text, and nothing for
      a field left out, sent as null, or sent with the value it already has. */
  lemma UpdateLogsChangedFields(s: Store, caller: User, id: int, u: TicketUpdate, now: nat, f: TicketField)
    requires UpdateTicket(s, caller, id, u, now).Success?
    ensures var t := s.tickets[TicketIndex(s.tickets, id).value];
      var s' := UpdateTicket(s, caller, id, u, now).value.0;
      var added := s'.history[|s.history|..];
      && s'.history == s.history + added
      && (forall e :: e in added ==> e.ticketId == t.id && e.userId == caller.id)
      && ((exists e :: e in added && e.action == ChangedAction(FieldName(f))) <==> Changes(t, u, f))
      && (forall e :: e in added && e.action == ChangedAction(FieldName(f)) ==>
            e.oldValue == Some(Shown(t, f)) && e.newValue == Some(RequestedShown(u, f)))
  {
    UpdateUnfold(s, caller, id, u, now);
    var t := s.tickets[TicketIndex(s.tickets, id).value];
    var s' := UpdateTicket(s, caller, id, u, now).value.0;
    var es := DiffEntries(t, u, caller.id, UpdateOrder, s.nextHistoryId);
    assert s'.history[|s.history|..] == es;
    AllFieldsListed(f);
    DiffLogsExactlyChanges(t, u, caller.id, UpdateOrder, s.nextHistoryId, f);
  }

  /** A request whose every field already holds logs nothing. */
  lemma NoChangesNoEntries(t: Ticket, u: TicketUpdate, userId: nat, fs: seq<TicketField>, nextId: nat)
    requires forall f :: !Changes(t, u, f)
    ensures DiffEntries(t, u, userId, fs, nextId) == []
  {
  }

  /** The merged ticket already holds every value of the request, whatever its close time. */
  lemma MergeSettles(t: Ticket, u: TicketUpdate, c: Option<nat>)
    ensures forall f :: !Changes(Merge(t, u).(closedAt := c), u, f)
    ensures Merge(Merge(t, u).(closedAt := c), u) == Merge(t, u).(closedAt := c)
  {
  }

  /** Sending the same update again finds nothing to change: no entry is written, the ticket
      and the store stay as the first update left them, whatever the clock says. */
  lemma UpdateIdempotent(s: Store, caller: User, id: int, u: TicketUpdate, now: nat, later: nat)
    requires UpdateTicket(s, caller, id, u, now).Success?
    ensures var s1 := UpdateTicket(s, caller, id, u, now).value.0;
      UpdateTicket(s1, caller, id, u, later).Success?
    ensures var (s1, t1) := UpdateTicket(s, caller, id, u, now).value;
      UpdateTicket(s1, caller, id, u, later).value.1 == t1
    ensures var s1 := UpdateTicket(s, caller, id, u, now).value.0;
      UpdateTicket(s1, caller, id, u, later).value.0 == s1
  {
    UpdateUnfold(s, caller, id, u, now);
    var i := TicketIndex(s.tickets, id).value;
    var t := s.tickets[i];
    var t1 := Updated(t, u, now);
    var s1 := UpdateTicket(s, caller, id, u, now).value.0;
    TicketIndexReplace(s.tickets, id, i, t1);
    MergeSettles(t, u, t1.closedAt);
    assert UpdateTicket(s1, caller, id, u, later).Success?;
    UpdateUnfold(s1, caller, id, u, later);
    UpdateAtSettled(s1, i, caller.id, u, later);
  }

  /** Updating a ticket that already holds every value of the request, and has a close time if
      the request asks for `closed`, writes nothing. */
  lemma UpdateAtSettled(s: Store, i: nat, userId: nat, u: TicketUpdate, now: nat)
    requires i < |s.tickets|
    requires forall f :: !Changes(s.tickets[i], u, f)
    requires Merge(s.tickets[i], u) == s.tickets[i]
    requires u.status == Some(Closed) ==> s.tickets[i].closedAt.Some?
    ensures UpdateAt(s, i, userId, u, now).0 == s
    ensures UpdateAt(s, i, userId, u, now).1 == s.tickets[i]
  {
    UpdateAtUnfold(s, i, userId, u, now);
    NoChangesNoEntries(s.tickets[i], u, userId, UpdateOrder, s.nextHistoryId);
    assert Updated(s.tickets[i], u, now) == s.tickets[i];
    RewriteSame(s, i);
  }

  /** Appending no entries and writing a ticket back unchanged leaves the store as it was. */
  lemma RewriteSame(s: Store, i: nat)
    requires i < |s.tickets|
    ensures WriteUpdate(s, i, [], s.tickets[i]) == s
  {
    assert s.tickets[i := s.tickets[i]] == s.tickets;
    assert s.history + [] == s.history;
  }

  /** An owning `user` may close its own ticket and reassign it: the update handler checks
      ownership only. */
  lemma OwnerMayCloseAndReassign(s: Store, caller: User, t: Ticket, assignee: int, now: nat)
    requires t in s.tickets && t.creatorId == caller.id && IsPlainUser(caller.role)
    requires forall k :: 0 <= k < |s.tickets| && s.tickets[k].id == t.id ==> s.tickets[k] == t
    ensures var u := TicketUpdate(None, None, None, None, Some(Closed), Some(assignee), None, None);
      var r := UpdateTicket(s, caller, t.id, u, now);
      r.Success? && r.value.1.status == Closed && r.value.1.assignedTo == Some(assignee)
  {
    var u := TicketUpdate(None, None, None, None, Some(Closed), Some(assignee), None, None);
    var k :| 0 <= k < |s.tickets| && s.tickets[k] == t;
    UpdateSetsRequestedFields(s, caller, t.id, u, now);
  }

  // ---------------------------------------------------------------------------------------
  // List and detail agree

  /** A ticket the list shows a caller opens in the detail view for that caller. */
  lemma ListedTicketIsViewable(s: Store, caller: User, q: TicketQuery, t: Ticket)
    requires Valid(s) && t in GetTickets(s, caller, q)
    ensures GetTicket(s, caller, t.id).Success? && GetTicket(s, caller, t.id).value.ticket == t
  {
    var k :| 0 <= k < |s.tickets| && s.tickets[k] == t;
    var i := TicketIndex(s.tickets, t.id).value;
    assert i == k;
  }

  /** The detail view hides nothing from the ticket's owner: an internal comment written by
      staff is in the owner's view. */
  lemma OwnerSeesInternalComments(s: Store, owner: User, t: Ticket, c: Comment)
    requires Valid(s) && t in s.tickets && t.creatorId == owner.id
    requires c in s.comments && c.ticketId == t.id && c.isInternal == EncodeFlag(true)
    ensures GetTicket(s, owner, t.id).Success? && c in GetTicket(s, owner, t.id).value.comments
  {
    var k :| 0 <= k < |s.tickets| && s.tickets[k] == t;
    var i := TicketIndex(s.tickets, t.id).value;
    assert i == k;
  }

  // ---------------------------------------------------------------------------------------
  // Store invariants

  /** Overwriting a ticket with a row that keeps its id, number and close time, and is closed
      only if it has a close time, keeps the invariants. */
  lemma ReplaceTicketKeepsValid(s: Store, i: nat, t: Ticket)
    requires Valid(s) && i < |s.tickets|
    requires t.id == s.tickets[i].id && t.number == s.tickets[i].number && t.closedAt == s.tickets[i].closedAt
    requires t.status == Closed ==> t.closedAt.Some?
    ensures Valid(s.(tickets := s.tickets[i := t]))
  {
    var s' := s.(tickets := s.tickets[i := t]);
    UsersUntouched(s, s');
    ReplaceRows(s, s', i, t);
    ReplaceRefs(s, s', i, t);
    forall k | 0 <= k < |s'.tickets| ensures s'.tickets[k].closedAt.Some? <==> ClosingRecorded(s'.history, s'.tickets[k].id) {
      assert s'.tickets[k].closedAt == s.tickets[k].closedAt && s'.tickets[k].id == s.tickets[k].id;
    }
  }

  lemma UsersUntouched(s: Store, s': Store)
    requires UsersValid(s) && s'.users == s.users && s'.nextUserId == s.nextUserId
    ensures UsersValid(s')
  {
  }

  /** Replacing a ticket row by one with the same id and number keeps ids and numbers unique. */
  lemma ReplaceRows(s: Store, s': Store, i: nat, t: Ticket)
    requires TicketRowsValid(s) && i < |s.tickets|
    requires s'.tickets == s.tickets[i := t] && s'.nextTicketId == s.nextTicketId
    requires t.id == s.tickets[i].id && t.number == s.tickets[i].number
    ensures TicketRowsValid(s')
  {
    forall k | 0 <= k < |s'.tickets| ensures s'.tickets[k].id == s.tickets[k].id && s'.tickets[k].number == s.tickets[k].number {
    }
  }

  /** Replacing a ticket row by one with the same id, and adding only history about it, keeps
      every comment, entry and attachment attached to a ticket. */
  lemma ReplaceRefs(s: Store, s': Store, i: nat, t: Ticket)
    requires RefsValid(s) && i < |s.tickets| && t.id == s.tickets[i].id
    requires s'.tickets == s.tickets[i := t] && s'.comments == s.comments && s'.attachments == s.attachments
    requires forall e :: e in s'.history ==> e in s.history || e.ticketId == t.id
    ensures RefsValid(s')
  {
    forall id | HasTicket(s.tickets, id) ensures HasTicket(s'.tickets, id) {
      var w :| w in s.tickets && w.id == id;
      var k :| 0 <= k < |s.tickets| && s.tickets[k] == w;
      assert s'.tickets[k].id == id;
    }
    assert s'.tickets[i] == t;
  }

  lemma CreateKeepsValid(s: Store, caller: User, data: TicketCreate, year: nat)
    requires Valid(s) && CreateTicket(s, caller, data, year).Success?
    ensures Valid(CreateTicket(s, caller, data, year).value.0)
  {
    var row := Ticket(0, NextNumber(s.tickets, year), data.title, data.description, data.category, caller.id,
                      data.location, data.equipmentType, data.priority, New);
    var (s1, t) := InsertTicket(s, row).value;
    InsertTicketKeepsValid(s, row);
    assert t in s1.tickets;
    RecordHistoryKeepsValid(s1, t.id, caller.id, CreatedAction, None, Some(CreatedNotePrefix + data.title));
  }

  lemma AppendCommentKeepsValid(s: Store, c: Comment)
    requires Valid(s) && HasTicket(s.tickets, c.ticketId)
    ensures Valid(s.(comments := s.comments + [c], nextCommentId := s.nextCommentId + 1))
  {
  }

  lemma CommentKeepsValid(s: Store, caller: User, ticketId: int, text: string, isInternal: bool)
    requires Valid(s) && AddComment(s, caller, ticketId, text, isInternal).Success?
    ensures Valid(AddComment(s, caller, ticketId, text, isInternal).value.0)
  {
    var i := TicketIndex(s.tickets, ticketId).value;
    assert s.tickets[i] in s.tickets;
    var (s', c) := AddComment(s, caller, ticketId, text, isInternal).value;
    var s1 := s.(comments := s.comments + [c], nextCommentId := s.nextCommentId + 1);
    AppendCommentKeepsValid(s, c);
    var s2 := RecordHistory(s1, c.ticketId, caller.id, CommentedAction, None, Some(Snapshot(text)));
    RecordHistoryKeepsValid(s1, c.ticketId, caller.id, CommentedAction, None, Some(Snapshot(text)));
    assert s' == s2;
  }

  lemma AssignKeepsValid(s: Store, caller: User, ticketId: int, engineerId: Option<int>)
    requires Valid(s) && AssignTicket(s, caller, ticketId, engineerId).Success?
    ensures Valid(AssignTicket(s, caller, ticketId, engineerId).value.0)
  {
    var i := TicketIndex(s.tickets, ticketId).value;
    var t := s.tickets[i];
    var assignee := engineerId.GetOr(caller.id);
    var t' := t.(assignedTo := Some(assignee), status := if t.status == New then InProgress else t.status);
    ReplaceTicketKeepsValid(s, i, t');
    var s1 := s.(tickets := s.tickets[i := t']);
    assert s1.tickets[i] == t';
    assert t' in s1.tickets;
    RecordHistoryKeepsValid(s1, t.id, caller.id, AssignedAction, Some(OptInt(t.assignedTo)), Some(IntToStr(assignee)));
    assert AssignTicket(s, caller, ticketId, engineerId)
        == Success((RecordHistory(s1, t.id, caller.id, AssignedAction, Some(OptInt(t.assignedTo)), Some(IntToStr(assignee))), t'));
  }

  /** Appending entries about ticket `i` and replacing it with a row that keeps its id and
      number keeps the invariants, provided the row is closed only with a close time and has a
      close time exactly when the extended history records its closing. */
  lemma UpdateStepKeepsValid(s: Store, i: nat, es: seq<HistoryEntry>, t2: Ticket)
    requires Valid(s) && i < |s.tickets|
    requires forall e :: e in es ==> e.ticketId == s.tickets[i].id
    requires t2.id == s.tickets[i].id && t2.number == s.tickets[i].number
    requires t2.status == Closed ==> t2.closedAt.Some?
    requires t2.closedAt.Some? <==> ClosingRecorded(s.history + es, t2.id)
    ensures Valid(WriteUpdate(s, i, es, t2))
  {
    var s' := WriteUpdate(s, i, es, t2);
    UsersUntouched(s, s');
    ReplaceRows(s, s', i, t2);
    ReplaceRefs(s, s', i, t2);
    UpdateStepClosing(s, i, es, t2);
  }

  lemma UpdateStepClosing(s: Store, i: nat, es: seq<HistoryEntry>, t2: Ticket)
    requires ClosingValid(s) && i < |s.tickets|
    requires forall e :: e in es ==> e.ticketId == s.tickets[i].id
    requires TicketRowsValid(s) && t2.id == s.tickets[i].id
    requires t2.status == Closed ==> t2.closedAt.Some?
    requires t2.closedAt.Some? <==> ClosingRecorded(s.history + es, t2.id)
    ensures ClosingValid(WriteUpdate(s, i, es, t2))
  {
    var s' := WriteUpdate(s, i, es, t2);
    forall k | 0 <= k < |s'.tickets|
      ensures s'.tickets[k].closedAt.Some? <==> ClosingRecorded(s'.history, s'.tickets[k].id)
    {
      if k != i {
        assert s'.tickets[k] == s.tickets[k];
        ClosingAppendOther(s.history, es, s.tickets[i].id, s.tickets[k].id);
      }
    }
  }

  /** The update keeps the invariants; in particular a ticket has a close time exactly when its
      history records it being set to `closed`. */
  lemma UpdateKeepsValid(s: Store, caller: User, id: int, u: TicketUpdate, now: nat)
    requires Valid(s) && UpdateTicket(s, caller, id, u, now).Success?
    ensures Valid(UpdateTicket(s, caller, id, u, now).value.0)
  {
    UpdateUnfold(s, caller, id, u, now);
    var i := TicketIndex(s.tickets, id).value;
    UpdateAtKeepsValid(s, i, caller.id, u, now);
  }

  /** The write of an update at a ticket of a valid store keeps the invariants. */
  lemma UpdateAtKeepsValid(s: Store, i: nat, userId: nat, u: TicketUpdate, now: nat)
    requires Valid(s) && i < |s.tickets|
    ensures Valid(UpdateAt(s, i, userId, u, now).0)
  {
    UpdateAtUnfold(s, i, userId, u, now);
    var t := s.tickets[i];
    var es := DiffEntries(t, u, userId, UpdateOrder, s.nextHistoryId);
    UpdatedFits(s.history, t, u, userId, now, s.nextHistoryId);
    UpdateStepKeepsValid(s, i, es, Updated(t, u, now));
  }

  /** The ticket an update leaves keeps its id and number, is closed only with a close time,
      and has a close time exactly when the extended history records its closing, given that
      the original ticket satisfied the same against the original history. */
  lemma UpdatedFits(h: seq<HistoryEntry>, t: Ticket, u: TicketUpdate, userId: nat, now: nat, nextId: nat)
    requires t.status == Closed ==> t.closedAt.Some?
    requires t.closedAt.Some? <==> ClosingRecorded(h, t.id)
    ensures var t2 := Updated(t, u, now);
      var es := DiffEntries(t, u, userId, UpdateOrder, nextId);
      && (forall e :: e in es ==> e.ticketId == t.id)
      && t2.id == t.id && t2.number == t.number
      && (t2.status == Closed ==> t2.closedAt.Some?)
      && (t2.closedAt.Some? <==> ClosingRecorded(h + es, t2.id))
  {
    AllFieldsListed(StatusField);
    DiffClosingEntry(h, t, u, userId, UpdateOrder, nextId);
  }

  // ---------------------------------------------------------------------------------------
  // The cascade

  /** Deleting a ticket with its cascade keeps the invariants: no comment, entry or attachment
      is left pointing at the deleted ticket, and every other ticket keeps its closing entries. */
  lemma RemoveKeepsValid(s: Store, id: nat)
    requires Valid(s)
    ensures Valid(RemoveTicket(s, id))
  {
    var s' := RemoveTicket(s, id);
    UsersUntouched(s, s');
    RemoveRows(s, id);
    RemoveClosing(s, id);
    RemoveRefs(s, id);
  }

  lemma RemoveRows(s: Store, id: nat)
    requires TicketRowsValid(s)
    ensures TicketRowsValid(RemoveTicket(s, id))
  {
    var s' := RemoveTicket(s, id);
    FilterKeepsDistinct(s.tickets, (t: Ticket) => t.id != id);
    forall k | 0 <= k < |s'.tickets| ensures 1 <= s'.tickets[k].id < s'.nextTicketId {
      assert s'.tickets[k] in s.tickets;
    }
  }

  lemma RemoveClosing(s: Store, id: nat)
    requires ClosingValid(s)
    ensures ClosingValid(RemoveTicket(s, id))
  {
    var s' := RemoveTicket(s, id);
    forall k | 0 <= k < |s'.tickets| ensures (s'.tickets[k].status == Closed ==> s'.tickets[k].closedAt.Some?)
      && (s'.tickets[k].closedAt.Some? <==> ClosingRecorded(s'.history, s'.tickets[k].id))
    {
      var t := s'.tickets[k];
      assert t in s'.tickets;
      var n :| 0 <= n < |s.tickets| && s.tickets[n] == t;
      if ClosingRecorded(s.history, t.id) {
        var e :| e in s.history && e.ticketId == t.id && e.action == ChangedAction("status") && e.newValue == Some(StatusName(Closed));
        assert e in s'.history;
      }
    }
  }

  lemma RemoveRefs(s: Store, id: nat)
    requires RefsValid(s)
    ensures RefsValid(RemoveTicket(s, id))
  {
    var s' := RemoveTicket(s, id);
    forall w | HasTicket(s.tickets, w) && w != id ensures HasTicket(s'.tickets, w) {
      var t :| t in s.tickets && t.id == w;
      assert t in s'.tickets;
    }
  }

  /** No two tickets share an id or a number. */
  predicate DistinctRows(ts: seq<Ticket>) {
    forall i, j :: 0 <= i < |ts| && 0 <= j < |ts| && i != j ==> ts[i].id != ts[j].id && ts[i].number != ts[j].number
  }

  /** Keeping some of the tickets keeps their ids and numbers distinct. */
  lemma {:induction false} FilterKeepsDistinct(ts: seq<Ticket>, p: Ticket -> bool)
    requires DistinctRows(ts)
    ensures DistinctRows(Filter(ts, p))
    decreases |ts|
  {
    if |ts| > 0 {
      var tail := ts[1..];
      assert DistinctRows(tail) by {
        forall i, j | 0 <= i < |tail| && 0 <= j < |tail| && i != j
          ensures tail[i].id != tail[j].id && tail[i].number != tail[j].number
        {
          assert tail[i] == ts[i + 1] && tail[j] == ts[j + 1];
        }
      }
      FilterKeepsDistinct(tail, p);
      var rt := Filter(tail, p);
      var r := Filter(ts, p);
      if p(ts[0]) {
        assert r == [ts[0]] + rt;
        forall i, j | 0 <= i < |r| && 0 <= j < |r| && i != j ensures r[i].id != r[j].id && r[i].number != r[j].number {
          if i > 0 && j > 0 {
            assert r[i] == rt[i - 1] && r[j] == rt[j - 1];
          } else {
            var k := if i == 0 then j - 1 else i - 1;
            assert rt[k] in rt;
            var m :| 0 <= m < |tail| && tail[m] == rt[k];
            assert ts[m + 1] == rt[k] && r[0] == ts[0] && r[k + 1] == rt[k];
          }
        }
      } else {
        assert r == rt;
      }
    }
  }

  // ---------------------------------------------------------------------------------------
  // Numbering survives every handler

  lemma CreateKeepsNumbering(s: Store, caller: User, data: TicketCreate, year: nat)
    requires NumberingConsistent(s.tickets)
    ensures CreateTicket(s, caller, data, year).Success?
    ensures NumberingConsistent(CreateTicket(s, caller, data, year).value.0.tickets)
  {
    NextNumberFresh(s.tickets, year);
    var t := CreateTicket(s, caller, data, year).value.1;
    AppendNextKeepsConsistent(s.tickets, t, year);
  }

  lemma UpdateKeepsNumbering(s: Store, caller: User, id: int, u: TicketUpdate, now: nat)
    requires NumberingConsistent(s.tickets) && UpdateTicket(s, caller, id, u, now).Success?
    ensures NumberingConsistent(UpdateTicket(s, caller, id, u, now).value.0.tickets)
  {
    var i := TicketIndex(s.tickets, id).value;
    ReplaceKeepsConsistent(s.tickets, i, UpdateTicket(s, caller, id, u, now).value.1);
  }

  lemma AssignKeepsNumbering(s: Store, caller: User, ticketId: int, engineerId: Option<int>)
    requires NumberingConsistent(s.tickets) && AssignTicket(s, caller, ticketId, engineerId).Success?
    ensures NumberingConsistent(AssignTicket(s, caller, ticketId, engineerId).value.0.tickets)
  {
    var i := TicketIndex(s.tickets, ticketId).value;
    ReplaceKeepsConsistent(s.tickets, i, AssignTicket(s, caller, ticketId, engineerId).value.1);
  }

  /** Two tickets created one after the other in the same year get consecutive sequence
      numbers, so different numbers. */
  lemma ConsecutiveCreates(s: Store, a: User, b: User, d1: TicketCreate, d2: TicketCreate, year: nat)
    requires NumberingConsistent(s.tickets)
    ensures CreateTicket(s, a, d1, year).Success?
    ensures var (s1, t1) := CreateTicket(s, a, d1, year).value;
      && CreateTicket(s1, b, d2, year).Success?
      && ParseTicketNumber(CreateTicket(s1, b, d2, year).value.1.number) == Some((year, CountYear(s.tickets, year) + 2))
      && CreateTicket(s1, b, d2, year).value.1.number != t1.number
  {
    CreateCounts(s, a, d1, year);
    var (s1, t1) := CreateTicket(s, a, d1, year).value;
    CreateCounts(s1, b, d2, year);
    var t2 := CreateTicket(s1, b, d2, year).value.1;
    assert ParseTicketNumber(t2.number) != ParseTicketNumber(t1.number);
  }

  /** Under the numbering invariant a create succeeds, its number reads back as the year and
      the next count, the count rises by one and the invariant holds afterwards. */
  lemma CreateCounts(s: Store, caller: User, data: TicketCreate, year: nat)
    requires NumberingConsistent(s.tickets)
    ensures CreateTicket(s, caller, data, year).Success?
    ensures var r := CreateTicket(s, caller, data, year).value;
      && ParseTicketNumber(r.1.number) == Some((year, CountYear(s.tickets, year) + 1))
      && CountYear(r.0.tickets, year) == CountYear(s.tickets, year) + 1
      && NumberingConsistent(r.0.tickets)
  {
    NextNumberFresh(s.tickets, year);
    var r := CreateTicket(s, caller, data, year);
    assert r.Success?;
    var t := r.value.1;
    assert r.value.0.tickets == s.tickets + [t];
    NextNumberCounts(s.tickets, t, year);
    AppendNextKeepsConsistent(s.tickets, t, year);
  }

  /** Sequential uniqueness rests on there being no deletions: after the first of a year's two
      tickets is deleted, the count is one again and the next create computes the number the
      second ticket already holds, which the unique column rejects. */
  lemma DeletionReusesNumber(s: Store, caller: User, data: TicketCreate, year: nat)
    requires |s.tickets| == 2 && s.tickets[0].id != s.tickets[1].id
    requires s.tickets[0].number == GenerateTicketNumber(year, 1)
    requires s.tickets[1].number == GenerateTicketNumber(year, 2)
    ensures NumberingConsistent(s.tickets)
    ensures CreateTicket(RemoveTicket(s, s.tickets[0].id), caller, data, year) == Failure(IntegrityViolation)
  {
    var t0, t1 := s.tickets[0], s.tickets[1];
    assert s.tickets == [t0, t1];
    TwoNumbersConsistent(t0, t1, year);
    RemoveFirstOfTwo(s);
    LastLeftClashes(t1, year);
    CreateOnTakenNumber(RemoveTicket(s, t0.id), caller, data, year, 0);
  }

  lemma RemoveFirstOfTwo(s: Store)
    requires |s.tickets| == 2 && s.tickets[0].id != s.tickets[1].id
    ensures RemoveTicket(s, s.tickets[0].id).tickets == [s.tickets[1]]
  {
    var t0, t1 := s.tickets[0], s.tickets[1];
    assert s.tickets == [t0, t1];
    assert Filter(s.tickets, (t: Ticket) => t.id != t0.id) == [t1];
  }

  /** A create whose next number some ticket already holds is refused. */
  lemma CreateOnTakenNumber(s: Store, caller: User, data: TicketCreate, year: nat, k: nat)
    requires k < |s.tickets| && s.tickets[k].number == NextNumber(s.tickets, year)
    ensures CreateTicket(s, caller, data, year) == Failure(IntegrityViolation)
  {
  }

  lemma TwoNumbersConsistent(t0: Ticket, t1: Ticket, year: nat)
    requires t0.number == GenerateTicketNumber(year, 1) && t1.number == GenerateTicketNumber(year, 2)
    ensures NumberingConsistent([t0, t1])
  {
    GeneratedHasYearPrefix(year, 1);
    GeneratedHasYearPrefix(year, 2);
    CountYearAppend([t0], t1, year);
    CountYearAppend([], t0, year);
    assert [] + [t0] == [t0] && [t0] + [t1] == [t0, t1];
    ParseGenerated(year, 1);
    ParseGenerated(year, 2);
  }

  lemma LastLeftClashes(t: Ticket, year: nat)
    requires t.number == GenerateTicketNumber(year, 2)
    ensures NextNumber([t], year) == t.number
  {
    GeneratedHasYearPrefix(year, 2);
    CountYearAppend([], t, year);
    assert [] + [t] == [t];
  }
}
