/** The chat intake: a conversation per chat identity that collects a ticket's title,
    description, category, priority, location and, for hardware, the equipment type, then writes
    the ticket straight to the shared store. The bot numbers the ticket with its own copy of the
    numbering rule, writes no history entry and applies no title length check. Reply texts,
    emoji and keyboards are not modelled; only the callback values the keyboards send are. */
module BotIntake {
  import opened Base
  import opened PyText
  import opened TicketSchemas
  import opened Models
  import opened Numbering

  /** The states of the ticket form; `Idle` is no state at all. */
  datatype FormState = Idle | AwaitTitle | AwaitDescription | AwaitCategory | AwaitPriority | AwaitLocation | AwaitEquipment

  /** The data a conversation has stored so far; a key never stored reads as `None`, as
      `data.get(...)` does. Location `None` also stands for a location stored as null. */
  datatype FormData = FormData(
    title: Option<string>,
    description: Option<string>,
    category: Option<Category>,
    priority: Option<Priority>,
    location: Option<string>,
    equipmentType: Option<string>)

  const EmptyForm: FormData := FormData(None, None, None, None, None, None)

  datatype Session = Session(state: FormState, data: FormData)

  /** What `state.clear()` leaves: no state and no data. */
  const Fresh: Session := Session(Idle, EmptyForm)

  /** The chat identity a message comes from. */
  datatype Sender = Sender(telegramId: int, username: Option<string>, fullName: string)

  /** An incoming update: a text message, or the press of an inline button. The buttons send
      `category:hardware|software`, `priority:critical|high|medium|low` and `cancel`. */
  datatype Event = Message(text: string) | CategoryPicked(category: Category) | PriorityPicked(priority: Priority) | Cancel

  /** What the bot does in answer: nothing, a plain answer, the ticket it created, the caller's
      own tickets, or the exception a handler raised. */
  datatype Reply = Silent | Answered | Created(ticket: Ticket) | OwnTickets(tickets: seq<Ticket>) | Raised(error: Error)

  datatype Outcome = Outcome(store: Store, session: Session, reply: Reply)

  const CreateButton: string := "\U{1F4DD} Создать заявку"
  const MyTicketsButton: string := "\U{1F4CB} Мои заявки"
  const HelpButton: string := "\U{2139}\U{FE0F} Помощь"

  /** The texts that mean "no location", compared after lower-casing. */
  const NoLocationWords: seq<string> := ["нет", "no", "-"]

  /** `Command(name)`: the text's first word, as `str.split()` finds it after any leading
      whitespace, is `/name`; whatever follows the first whitespace after it is the arguments. */
  predicate IsCommand(text: string, name: string) {
    var t := text[LeadingSpaces(text)..];
    "/" + name <= t && (|t| == |name| + 1 || IsSpace(t[|name| + 1]))
  }

  /** A command is recognised alone, after leading whitespace, and with arguments after any
      whitespace character, a line break included. */
  lemma CommandWithArguments(ws: string, name: string, sep: char, args: string)
    requires AllSpace(ws) && IsSpace(sep)
    ensures IsCommand(ws + "/" + name, name)
    ensures IsCommand(ws + "/" + name + [sep] + args, name)
  {
    LeadingSpacesOf(ws, "/" + name);
    assert ws + "/" + name == ws + ("/" + name);
    var full := ws + "/" + name + [sep] + args;
    LeadingSpacesOf(ws, "/" + name + [sep] + args);
    assert full == ws + ("/" + name + [sep] + args);
    assert full[|ws|..] == "/" + name + [sep] + args;
  }

  /** A word that only starts with the command's name is not the command. */
  lemma LongerWordIsNoCommand(name: string, c: char, rest: string)
    requires !IsSpace(c)
    ensures !IsCommand("/" + name + [c] + rest, name)
  {
    var text := "/" + name + [c] + rest;
    assert text[0] == '/';
    assert text[|name| + 1] == c;
  }

  /** A text that no handler registered before the form handlers takes: not `/start`, not
      `/help`, not the help button and not the create button. */
  predicate FormText(text: string) {
    !IsCommand(text, "start") && !IsCommand(text, "help") && text != HelpButton && text != CreateButton
  }

  // ---------------------------------------------------------------------------------------
  // get_or_create_user

  /** `get_or_create_user`: the user holding the chat id, or else a new `user` with the chat's
      username and full name and neither e-mail nor password. The insert can still be refused
      by the unique username column when a registered user already has that username. */
  function GetOrCreateUser(s: Store, who: Sender): (r: Result<(Store, User)>)
    ensures UserByTelegram(s.users, who.telegramId).Some? ==>
      r == Success((s, s.users[UserByTelegram(s.users, who.telegramId).value]))
    ensures UserByTelegram(s.users, who.telegramId).None? && r.Success? ==>
      var (s', u) := r.value;
      && u == User(s.nextUserId, Some(who.telegramId), who.username, Some(who.fullName), None, None, Some(RoleUser))
      && s' == s.(users := s.users + [u], nextUserId := s.nextUserId + 1)
    ensures r.Failure? ==> r.error == IntegrityViolation
    ensures r.Success? ==> r.value.1.telegramId == Some(who.telegramId)
  {
    match UserByTelegram(s.users, who.telegramId)
    case Some(i) => Success((s, s.users[i]))
    case None => InsertUser(s, User(0, Some(who.telegramId), who.username, Some(who.fullName), None, None, Some(RoleUser)))
  }

  /** Resolving the same chat identity again finds the user the first call returned and
      changes nothing. */
  lemma GetOrCreateIdempotent(s: Store, who: Sender)
    requires GetOrCreateUser(s, who).Success?
    ensures var (s1, u) := GetOrCreateUser(s, who).value;
      GetOrCreateUser(s1, who) == Success((s1, u))
  {
    var (s1, u) := GetOrCreateUser(s, who).value;
    if UserByTelegram(s.users, who.telegramId).None? {
      assert s1.users[|s.users|] == u;
      assert forall k :: 0 <= k < |s.users| ==> s1.users[k] == s.users[k];
    }
  }

  // ---------------------------------------------------------------------------------------
  // create_ticket_in_db

  /** The tickets the bot's query returns: `ticket_number LIKE 'IT-<year>-%'`, in store order. */
  function LikeYear(ts: seq<Ticket>, year: nat): (r: seq<Ticket>)
    ensures forall t :: t in r <==> t in ts && "IT-" + Decimal(year) + "-" <= t.number
  {
    if |ts| == 0 then []
    else (if "IT-" + Decimal(year) + "-" <= ts[0].number then [ts[0]] else []) + LikeYear(ts[1..], year)
  }

  /** The bot's inline number: `f"IT-{year}-{len(existing) + 1:04d}"`. */
  function BotNumber(ts: seq<Ticket>, year: nat): string {
    "IT-" + Decimal(year) + "-" + ZeroPad4(|LikeYear(ts, year)| + 1)
  }

  /** `create_ticket_in_db`: the user is looked up by chat id (`scalar_one`, so an unknown chat
      id raises), the title, category and priority are read with `data[...]` (a missing one
      raises), the rest with `data.get(...)`. The ticket is inserted with status `new`; no
      history entry is written. */
  function SubmitForm(s: Store, data: FormData, telegramId: int, year: nat): (r: Result<(Store, Ticket)>)
    ensures UserByTelegram(s.users, telegramId).None? ==> r == Failure(NotFound)
    ensures UserByTelegram(s.users, telegramId).Some? && (data.title.None? || data.category.None? || data.priority.None?) ==>
      r == Failure(MissingFormField)
    ensures r == Failure(IntegrityViolation) <==>
      && UserByTelegram(s.users, telegramId).Some? && data.title.Some? && data.category.Some? && data.priority.Some?
      && NumberTaken(s.tickets, BotNumber(s.tickets, year))
    ensures r.Failure? ==> r.error in {NotFound, MissingFormField, IntegrityViolation}
    ensures r.Success? ==>
      var (s', t) := r.value;
      var u := s.users[UserByTelegram(s.users, telegramId).value];
      && u.telegramId == Some(telegramId)
      && t == Ticket(s.nextTicketId, BotNumber(s.tickets, year), data.title.value, data.description,
                     data.category.value, u.id, data.location, data.equipmentType, data.priority.value, New)
      && s' == s.(tickets := s.tickets + [t], nextTicketId := s.nextTicketId + 1)
  {
    match UserByTelegram(s.users, telegramId)
    case None => Failure(NotFound)
    case Some(i) =>
      if data.title.None? || data.category.None? || data.priority.None? then Failure(MissingFormField)
      else
        var row := Ticket(0, BotNumber(s.tickets, year), data.title.value, data.description, data.category.value,
                          s.users[i].id, data.location, data.equipmentType, data.priority.value, New);
        InsertTicket(s, row)
  }

  /** The outcome holds a new ticket, numbered by the bot's rule, appended to the store, with
      nothing else written. */
  predicate Inserted(s: Store, r: Outcome, year: nat)
    requires r.reply.Created?
  {
    var t := r.reply.ticket;
    && t.id == s.nextTicketId && t.number == BotNumber(s.tickets, year)
    && t.status == New && t.assignedTo.None? && t.closedAt.None?
    && !NumberTaken(s.tickets, t.number)
    && r.store == s.(tickets := s.tickets + [t], nextTicketId := s.nextTicketId + 1)
  }

  /** The submit step of the conversation: on success the session is cleared; when the handler
      raises, nothing is committed and the session keeps its state and data. */
  function Submit(s: Store, sess: Session, telegramId: int, year: nat): (r: Outcome)
    ensures r.reply.Created? || r.reply.Raised?
    ensures r.reply.Created? ==> r.session == Fresh && Inserted(s, r, year)
    ensures r.reply.Raised? ==> r.store == s && r.session == sess
  {
    match SubmitForm(s, sess.data, telegramId, year)
    case Success((s', t)) => Outcome(s', Fresh, Created(t))
    case Failure(e) => Outcome(s, sess, Raised(e))
  }

  // ---------------------------------------------------------------------------------------
  // The dispatcher

  /** The stored location: null when the text, lower-cased, is `нет`, `no` or `-`; otherwise
      the text as sent. */
  function LocationOf(text: string): (r: Option<string>)
    ensures r.None? <==> Lower(text) in NoLocationWords
    ensures r.Some? ==> r.value == text
  {
    if Lower(text) in NoLocationWords then None else Some(text)
  }

  /** `/mytickets` and the "my tickets" button: the tickets the chat's user created, or an
      answer that the user is unknown. */
  function ShowMyTickets(s: Store, telegramId: int): (r: Reply)
    ensures UserByTelegram(s.users, telegramId).None? <==> r == Answered
    ensures r.OwnTickets? ==>
      var u := s.users[UserByTelegram(s.users, telegramId).value];
      forall t :: t in r.tickets <==> t in s.tickets && t.creatorId == u.id
  {
    match UserByTelegram(s.users, telegramId)
    case None => Answered
    case Some(i) => OwnTickets(Filter(s.tickets, (t: Ticket) => t.creatorId == s.users[i].id))
  }

  /** One update for one chat identity, handled by the first handler whose filter matches, in
      the order the handlers are registered: `/start`, help, the create button, the four text
      states of the form, then "my tickets". Button presses are handled whatever the state.
      An update no handler matches is dropped. The bot never writes history, comments or
      attachments. */
  function Dispatch(s: Store, sess: Session, who: Sender, ev: Event, year: nat): (r: Outcome)
    ensures r.store.history == s.history && r.store.comments == s.comments && r.store.attachments == s.attachments
    ensures r.reply.Created? ==> Inserted(s, r, year)
    ensures !r.reply.Created? ==> r.store.tickets == s.tickets
    ensures r.reply.Silent? ==> r.store == s && r.session == sess
    ensures !r.reply.Created? && r.store != s ==>
      GetOrCreateUser(s, who).Success? && r.store == GetOrCreateUser(s, who).value.0
  {
    match ev
    case Cancel => Outcome(s, Fresh, Answered)
    case CategoryPicked(c) => Outcome(s, Session(AwaitPriority, sess.data.(category := Some(c))), Answered)
    case PriorityPicked(p) => Outcome(s, Session(AwaitLocation, sess.data.(priority := Some(p))), Answered)
    case Message(text) =>
      if IsCommand(text, "start") then
        match GetOrCreateUser(s, who)
        case Success((s', _)) => Outcome(s', sess, Answered)
        case Failure(e) => Outcome(s, sess, Raised(e))
      else if IsCommand(text, "help") || text == HelpButton then Outcome(s, sess, Answered)
      else if text == CreateButton then Outcome(s, sess.(state := AwaitTitle), Answered)
      else if sess.state == AwaitTitle then
        Outcome(s, Session(AwaitDescription, sess.data.(title := Some(text))), Answered)
      else if sess.state == AwaitDescription then
        Outcome(s, Session(AwaitCategory, sess.data.(description := Some(text))), Answered)
      else if sess.state == AwaitLocation then
        var data := sess.data.(location := LocationOf(text));
        if data.category == Some(Hardware) then Outcome(s, Session(AwaitEquipment, data), Answered)
        else Submit(s, sess.(data := data), who.telegramId, year)
      else if sess.state == AwaitEquipment then
        Submit(s, sess.(data := sess.data.(equipmentType := Some(text))), who.telegramId, year)
      else if text == MyTicketsButton || IsCommand(text, "mytickets") then
        Outcome(s, sess, ShowMyTickets(s, who.telegramId))
      else Outcome(s, sess, Silent)
  }

  /** The conversations of all chat identities; an identity without an entry is `Fresh`. */
  type Sessions = map<int, Session>

  function SessionOf(m: Sessions, id: int): Session {
    if id in m then m[id] else Fresh
  }

  /** Handling an update touches only the sender's own conversation. */
  function Handle(s: Store, m: Sessions, who: Sender, ev: Event, year: nat): (r: (Store, Sessions, Reply))
    ensures SessionOf(r.1, who.telegramId) == Dispatch(s, SessionOf(m, who.telegramId), who, ev, year).session
    ensures forall id :: id != who.telegramId ==> SessionOf(r.1, id) == SessionOf(m, id)
    ensures r.0.history == s.history
  {
    var o := Dispatch(s, SessionOf(m, who.telegramId), who, ev, year);
    (o.store, m[who.telegramId := o.session], o.reply)
  }

  /** A sequence of updates from one chat identity. */
  function Run(s: Store, sess: Session, who: Sender, evs: seq<Event>, year: nat): (r: Outcome)
    ensures r.store.history == s.history
    decreases |evs|
  {
    if |evs| == 0 then Outcome(s, sess, Silent)
    else
      var o := Dispatch(s, sess, who, evs[0], year);
      if |evs| == 1 then o else Run(o.store, o.session, who, evs[1..], year)
  }
}
