/** What the chat intake guarantees, and how it relates to the service: the bot's inline number
    is the service's number for the same store, the two entry points write the same ticket row
    but only the service writes history, the bot takes titles the service refuses, a full
    conversation creates the ticket it collected, and every update keeps the store invariants. */
module BotProperties {
  import opened Base
  import opened PyText
  import opened TicketSchemas
  import opened Models
  import opened Numbering
  import opened TicketsApi
  import opened TicketsProperties
  import opened BotIntake

  // ---------------------------------------------------------------------------------------
  // The two numbering rules agree

  /** `CountYear` read from the front. */
  lemma {:induction false} CountYearCons(t: Ticket, rest: seq<Ticket>, year: nat)
    ensures CountYear([t] + rest, year) == (if YearPrefix(year) <= t.number then 1 else 0) + CountYear(rest, year)
    decreases |rest|
  {
    var ts := [t] + rest;
    if |rest| == 0 {
      assert ts[..|ts| - 1] == [];
    } else {
      var n := |rest|;
      assert ts[..|ts| - 1] == [t] + rest[..n - 1];
      assert ts[|ts| - 1] == rest[n - 1];
      CountYearCons(t, rest[..n - 1], year);
    }
  }

  /** The bot's query returns as many tickets as the service counts. */
  lemma {:induction false} LikeYearCount(ts: seq<Ticket>, year: nat)
    ensures |LikeYear(ts, year)| == CountYear(ts, year)
    decreases |ts|
  {
    if |ts| > 0 {
      LikeYearCount(ts[1..], year);
      CountYearCons(ts[0], ts[1..], year);
      assert [ts[0]] + ts[1..] == ts;
    }
  }

  /** The number the bot computes inline is the one `generate_ticket_number` gives the service
      for the same store and year. */
  lemma BotNumberAgrees(ts: seq<Ticket>, year: nat)
    ensures BotNumber(ts, year) == NextNumber(ts, year)
  {
    LikeYearCount(ts, year);
  }

  // ---------------------------------------------------------------------------------------
  // The two entry points

  /** The service request carrying the same fields as a completed chat form. */
  function RequestOf(data: FormData): TicketCreate
    requires data.title.Some? && data.category.Some? && data.priority.Some?
  {
    TicketCreate(data.title.value, data.description, data.category.value, data.priority.value,
                 data.location, data.equipmentType)
  }

  /** A form the bot submits, sent to the service by the same user instead, gives the very same
      ticket row and ticket table; the service also writes its `created` entry, the bot writes
      none. */
  lemma EntryPointsAgree(s: Store, data: FormData, telegramId: int, year: nat)
    requires SubmitForm(s, data, telegramId, year).Success?
    ensures var u := s.users[UserByTelegram(s.users, telegramId).value];
      var (sb, tb) := SubmitForm(s, data, telegramId, year).value;
      var api := CreateTicket(s, u, RequestOf(data), year);
      && api.Success?
      && api.value.1 == tb
      && api.value.0.tickets == sb.tickets
      && sb.history == s.history
      && |api.value.0.history| == |s.history| + 1
  {
    BotNumberAgrees(s.tickets, year);
  }

  /** A title shorter than three characters, or longer than 200, is refused by the service's
      schema but stored by the bot. */
  lemma BotSkipsTitleCheck(s: Store, data: FormData, telegramId: int, year: nat, req: TicketCreateRequest)
    requires UserByTelegram(s.users, telegramId).Some?
    requires data.title.Some? && data.category.Some? && data.priority.Some?
    requires NumberingConsistent(s.tickets)
    requires req.title == data.title && !ValidTitle(data.title.value)
    ensures ValidateTicketCreate(req).Failure?
    ensures SubmitForm(s, data, telegramId, year).Success?
    ensures SubmitForm(s, data, telegramId, year).value.1.title == data.title.value
  {
    BotNumberAgrees(s.tickets, year);
    NextNumberFresh(s.tickets, year);
  }

  /** A ticket created through the service and then one through the bot, in the same year, get
      different numbers. */
  lemma ApiThenBotDistinct(s: Store, caller: User, d: TicketCreate, data: FormData, telegramId: int, year: nat)
    requires NumberingConsistent(s.tickets)
    requires UserByTelegram(s.users, telegramId).Some?
    requires data.title.Some? && data.category.Some? && data.priority.Some?
    ensures CreateTicket(s, caller, d, year).Success?
    ensures var (s1, t1) := CreateTicket(s, caller, d, year).value;
      && SubmitForm(s1, data, telegramId, year).Success?
      && SubmitForm(s1, data, telegramId, year).value.1.number != t1.number
  {
    CreateKeepsNumbering(s, caller, d, year);
    var (s1, t1) := CreateTicket(s, caller, d, year).value;
    assert s1.users == s.users;
    SubmitSucceeds(s1, data, telegramId, year);
    assert t1 == s1.tickets[|s1.tickets| - 1];
    NextNumberFresh(s1.tickets, year);
  }

  // ---------------------------------------------------------------------------------------
  // Conversations

  /** `нет` and `no` mean "no location" however they are capitalised; any other text is kept as
      typed, capitals included. */
  lemma CapitalNoWord(text: string)
    requires || (|text| == 3 && (text[0] == 'н' || text[0] == 'Н') && (text[1] == 'е' || text[1] == 'Е')
                                && (text[2] == 'т' || text[2] == 'Т'))
             || (|text| == 2 && (text[0] == 'n' || text[0] == 'N') && (text[1] == 'o' || text[1] == 'O'))
    ensures LocationOf(text) == None
  {
    if |text| == 3 {
      assert Lower(text) == "нет";
    } else {
      assert Lower(text) == "no";
    }
  }

  /** `text` is the lower-case word `w` with any of its letters possibly capitalised. */
  predicate CaseOf(text: string, w: string) {
    |text| == |w| && forall i :: 0 <= i < |w| ==> text[i] == w[i] || LowerChar(text[i]) == w[i]
  }

  /** Any text other than `-` and the capitalisations of `нет` and `no` is stored exactly as
      typed, capitals included. */
  lemma LocationKeptAsTyped(text: string)
    requires text != "-" && !CaseOf(text, "нет") && !CaseOf(text, "no")
    ensures LocationOf(text) == Some(text)
  {
    LowerGivesCase(text, "нет");
    LowerGivesCase(text, "no");
    LowerGivesDash(text);
  }

  /** A text whose lower-case form is `w` is a capitalisation of `w`. */
  lemma LowerGivesCase(text: string, w: string)
    ensures Lower(text) == w ==> CaseOf(text, w)
  {
  }

  /** Only `-` itself lower-cases to `-`. */
  lemma LowerGivesDash(text: string)
    ensures Lower(text) == "-" ==> text == "-"
  {
    if Lower(text) == "-" {
      assert LowerChar(text[0]) == '-';
    }
  }

  lemma ButtonsAreFormless()
    ensures !IsCommand(CreateButton, "start") && !IsCommand(CreateButton, "help") && CreateButton != HelpButton
  {
    assert !IsSpace(CreateButton[0]);
    assert LeadingSpaces(CreateButton) == 0;
    assert CreateButton[0] != '/';
    assert CreateButton[0] != HelpButton[0];
  }

  /** Help asked with a line break before its arguments is still the help command: while the
      form waits for a title, the text is answered as help and not stored as the title. */
  lemma HelpOnTwoLines(s: Store, sess: Session, who: Sender, year: nat)
    requires sess.state == AwaitTitle
    ensures Dispatch(s, sess, who, Message("/help\nplease"), year) == Outcome(s, sess, Answered)
  {
    CommandWithArguments("", "help", '\n', "please");
    assert "" + "/" + "help" + ['\n'] + "please" == "/help\nplease";
    assert !IsCommand("/help\nplease", "start") by {
      assert LeadingSpaces("/help\nplease") == 0;
      assert "/help\nplease"[1] != "/start"[1];
    }
  }

  /** Under the numbering invariant a complete form from a registered chat identity is
      stored, under the service's next number. */
  lemma SubmitSucceeds(s: Store, data: FormData, telegramId: int, year: nat)
    requires UserByTelegram(s.users, telegramId).Some?
    requires data.title.Some? && data.category.Some? && data.priority.Some?
    requires NumberingConsistent(s.tickets)
    ensures SubmitForm(s, data, telegramId, year).Success?
    ensures SubmitForm(s, data, telegramId, year).value.1.number == NextNumber(s.tickets, year)
  {
    BotNumberAgrees(s.tickets, year);
    NextNumberFresh(s.tickets, year);
    var r := SubmitForm(s, data, telegramId, year);
    assert r != Failure(IntegrityViolation);
    assert r.Success?;
    assert r.value.1.number == BotNumber(s.tickets, year);
  }

  /** The conversation's submit step at the location for a software ticket, and its outcome. */
  lemma SubmitAtLocation(s: Store, sess: Session, who: Sender, loc: string, year: nat)
    requires sess.state == AwaitLocation && FormText(loc)
    requires sess.data.category.Some? && sess.data.category != Some(Hardware)
    requires sess.data.title.Some? && sess.data.priority.Some?
    requires UserByTelegram(s.users, who.telegramId).Some? && NumberingConsistent(s.tickets)
    ensures var data := sess.data.(location := LocationOf(loc));
      var u := s.users[UserByTelegram(s.users, who.telegramId).value];
      var r := Dispatch(s, sess, who, Message(loc), year);
      && r.session == Fresh
      && r.reply == Created(Ticket(s.nextTicketId, NextNumber(s.tickets, year), data.title.value, data.description,
                                   data.category.value, u.id, data.location, data.equipmentType, data.priority.value, New))
  {
    var data := sess.data.(location := LocationOf(loc));
    DispatchAtLocation(s, sess, who, loc, year);
    SubmitOutcome(s, sess.(data := data), who.telegramId, year);
  }

  lemma DispatchAtLocation(s: Store, sess: Session, who: Sender, loc: string, year: nat)
    requires sess.state == AwaitLocation && FormText(loc) && sess.data.category != Some(Hardware)
    ensures Dispatch(s, sess, who, Message(loc), year)
         == Submit(s, sess.(data := sess.data.(location := LocationOf(loc))), who.telegramId, year)
  {
  }

  /** For a hardware ticket the location is stored and the form asks for the equipment type. */
  lemma LocationToEquipment(s: Store, sess: Session, who: Sender, loc: string, year: nat)
    requires sess.state == AwaitLocation && FormText(loc) && sess.data.category == Some(Hardware)
    ensures Dispatch(s, sess, who, Message(loc), year)
         == Outcome(s, Session(AwaitEquipment, sess.data.(location := LocationOf(loc))), Answered)
  {
  }

  lemma DispatchAtEquipment(s: Store, sess: Session, who: Sender, text: string, year: nat)
    requires sess.state == AwaitEquipment && FormText(text)
    ensures Dispatch(s, sess, who, Message(text), year)
         == Submit(s, sess.(data := sess.data.(equipmentType := Some(text))), who.telegramId, year)
  {
  }

  /** The submit step with a complete form from a registered chat identity creates the ticket
      the form describes and clears the conversation. */
  lemma SubmitOutcome(s: Store, sess: Session, telegramId: int, year: nat)
    requires sess.data.title.Some? && sess.data.category.Some? && sess.data.priority.Some?
    requires UserByTelegram(s.users, telegramId).Some? && NumberingConsistent(s.tickets)
    ensures var data := sess.data;
      var u := s.users[UserByTelegram(s.users, telegramId).value];
      var r := Submit(s, sess, telegramId, year);
      && r.session == Fresh
      && r.reply == Created(Ticket(s.nextTicketId, NextNumber(s.tickets, year), data.title.value, data.description,
                                   data.category.value, u.id, data.location, data.equipmentType, data.priority.value, New))
  {
    SubmitSucceeds(s, sess.data, telegramId, year);
  }

  /** A whole software conversation: the create button, the title, the description, the
      category and priority buttons, and the location. The ticket holds exactly what was typed
      and picked, is numbered as the service would, and the conversation ends cleared. The
      create button does not clear data left by an earlier conversation whose submit raised, so
      an equipment type stored then is carried into this ticket. */
  lemma SoftwareIntake(s: Store, sess: Session, who: Sender, title: string, desc: string, p: Priority,
                       loc: string, year: nat)
    requires FormText(title) && FormText(desc) && FormText(loc)
    requires UserByTelegram(s.users, who.telegramId).Some? && NumberingConsistent(s.tickets)
    ensures var u := s.users[UserByTelegram(s.users, who.telegramId).value];
      var r := Run(s, sess, who, [Message(CreateButton), Message(title), Message(desc), CategoryPicked(Software),
                                  PriorityPicked(p), Message(loc)], year);
      && r.session == Fresh
      && r.reply == Created(Ticket(s.nextTicketId, NextNumber(s.tickets, year), title, Some(desc), Software, u.id,
                                   LocationOf(loc), sess.data.equipmentType, p, New))
  {
    var tail := [Message(loc)];
    assert [Message(CreateButton), Message(title), Message(desc), CategoryPicked(Software), PriorityPicked(p), Message(loc)]
        == [Message(CreateButton), Message(title), Message(desc)] + ([CategoryPicked(Software), PriorityPicked(p)] + tail);
    OpenForm(s, sess, who, title, desc, [CategoryPicked(Software), PriorityPicked(p)] + tail, year);
    var s3 := Session(AwaitCategory, sess.data.(title := Some(title), description := Some(desc)));
    PickButtons(s, s3, who, Software, p, tail, year);
    var s5 := Session(AwaitLocation, s3.data.(category := Some(Software), priority := Some(p)));
    RunOne(s, s5, who, Message(loc), year);
    SubmitAtLocation(s, s5, who, loc, year);
  }

  /** A hardware conversation goes through the equipment step, and the ticket carries the
      equipment type typed there. */
  lemma HardwareIntake(s: Store, sess: Session, who: Sender, title: string, desc: string, p: Priority,
                       loc: string, equipment: string, year: nat)
    requires FormText(title) && FormText(desc) && FormText(loc) && FormText(equipment)
    requires UserByTelegram(s.users, who.telegramId).Some? && NumberingConsistent(s.tickets)
    ensures var u := s.users[UserByTelegram(s.users, who.telegramId).value];
      var r := Run(s, sess, who, [Message(CreateButton), Message(title), Message(desc), CategoryPicked(Hardware),
                                  PriorityPicked(p), Message(loc), Message(equipment)], year);
      && r.session == Fresh
      && r.reply == Created(Ticket(s.nextTicketId, NextNumber(s.tickets, year), title, Some(desc), Hardware, u.id,
                                   LocationOf(loc), Some(equipment), p, New))
  {
    var tail := [Message(loc), Message(equipment)];
    assert [Message(CreateButton), Message(title), Message(desc), CategoryPicked(Hardware), PriorityPicked(p),
            Message(loc), Message(equipment)]
        == [Message(CreateButton), Message(title), Message(desc)] + ([CategoryPicked(Hardware), PriorityPicked(p)] + tail);
    OpenForm(s, sess, who, title, desc, [CategoryPicked(Hardware), PriorityPicked(p)] + tail, year);
    var s3 := Session(AwaitCategory, sess.data.(title := Some(title), description := Some(desc)));
    PickButtons(s, s3, who, Hardware, p, tail, year);
    var s5 := Session(AwaitLocation, s3.data.(category := Some(Hardware), priority := Some(p)));
    HardwareTail(s, s5, who, loc, equipment, year);
  }

  /** The opening of a conversation: the create button, the title and the description move the
      form to the category step without touching the store. */
  lemma OpenForm(s: Store, sess: Session, who: Sender, title: string, desc: string, rest: seq<Event>, year: nat)
    requires FormText(title) && FormText(desc) && |rest| >= 1
    ensures Run(s, sess, who, [Message(CreateButton), Message(title), Message(desc)] + rest, year)
         == Run(s, Session(AwaitCategory, sess.data.(title := Some(title), description := Some(desc))), who, rest, year)
  {
    var r2 := [Message(desc)] + rest;
    var r1 := [Message(title)] + r2;
    assert [Message(CreateButton), Message(title), Message(desc)] + rest == [Message(CreateButton)] + r1;
    var s1 := Session(AwaitTitle, sess.data);
    var s2 := Session(AwaitDescription, sess.data.(title := Some(title)));
    CreateButtonStep(s, sess, who, year);
    RunCons(s, sess, who, Message(CreateButton), r1, year, s1);
    TextStep(s, s1, who, title, year);
    RunCons(s, s1, who, Message(title), r2, year, s2);
    TextStep(s, s2, who, desc, year);
    RunCons(s, s2, who, Message(desc), rest, year, Session(AwaitCategory, s2.data.(description := Some(desc))));
  }

  /** An answered update that leaves the store alone hands the rest of the run to the next
      conversation state. */
  lemma RunCons(s: Store, sess: Session, who: Sender, ev: Event, rest: seq<Event>, year: nat, next: Session)
    requires |rest| >= 1
    requires Dispatch(s, sess, who, ev, year) == Outcome(s, next, Answered)
    ensures Run(s, sess, who, [ev] + rest, year) == Run(s, next, who, rest, year)
  {
    assert ([ev] + rest)[1..] == rest;
  }

  /** The create button opens the form at the title step and keeps the stored data. */
  lemma CreateButtonStep(s: Store, sess: Session, who: Sender, year: nat)
    ensures Dispatch(s, sess, who, Message(CreateButton), year) == Outcome(s, Session(AwaitTitle, sess.data), Answered)
  {
    ButtonsAreFormless();
  }

  /** While the form waits for the title or the description, a form text is stored there and the
      form moves on. */
  lemma TextStep(s: Store, sess: Session, who: Sender, text: string, year: nat)
    requires FormText(text)
    ensures sess.state == AwaitTitle ==>
      Dispatch(s, sess, who, Message(text), year) == Outcome(s, Session(AwaitDescription, sess.data.(title := Some(text))), Answered)
    ensures sess.state == AwaitDescription ==>
      Dispatch(s, sess, who, Message(text), year) == Outcome(s, Session(AwaitCategory, sess.data.(description := Some(text))), Answered)
  {
  }

  /** The category and priority buttons move the form to the location step. */
  lemma PickButtons(s: Store, sess: Session, who: Sender, c: Category, p: Priority, rest: seq<Event>, year: nat)
    requires |rest| >= 1
    ensures Run(s, sess, who, [CategoryPicked(c), PriorityPicked(p)] + rest, year)
         == Run(s, Session(AwaitLocation, sess.data.(category := Some(c), priority := Some(p))), who, rest, year)
  {
    var r1 := [PriorityPicked(p)] + rest;
    assert [CategoryPicked(c), PriorityPicked(p)] + rest == [CategoryPicked(c)] + r1;
    var s1 := Session(AwaitPriority, sess.data.(category := Some(c)));
    RunCons(s, sess, who, CategoryPicked(c), r1, year, s1);
    RunCons(s, s1, who, PriorityPicked(p), rest, year, Session(AwaitLocation, s1.data.(priority := Some(p))));
  }

  /** The last two steps of a hardware conversation: the location moves on to the equipment
      step, and the equipment type submits the form. */
  lemma HardwareTail(s: Store, sess: Session, who: Sender, loc: string, equipment: string, year: nat)
    requires sess.state == AwaitLocation && FormText(loc) && FormText(equipment)
    requires sess.data.category == Some(Hardware) && sess.data.title.Some? && sess.data.priority.Some?
    requires UserByTelegram(s.users, who.telegramId).Some? && NumberingConsistent(s.tickets)
    ensures var data := sess.data.(location := LocationOf(loc), equipmentType := Some(equipment));
      var u := s.users[UserByTelegram(s.users, who.telegramId).value];
      var r := Run(s, sess, who, [Message(loc), Message(equipment)], year);
      && r.session == Fresh
      && r.reply == Created(Ticket(s.nextTicketId, NextNumber(s.tickets, year), data.title.value, data.description,
                                   Hardware, u.id, data.location, data.equipmentType, data.priority.value, New))
  {
    var s6 := Session(AwaitEquipment, sess.data.(location := LocationOf(loc)));
    LocationToEquipment(s, sess, who, loc, year);
    assert [Message(loc), Message(equipment)] == [Message(loc)] + [Message(equipment)];
    RunCons(s, sess, who, Message(loc), [Message(equipment)], year, s6);
    RunOne(s, s6, who, Message(equipment), year);
    DispatchAtEquipment(s, s6, who, equipment, year);
    SubmitOutcome(s, s6.(data := s6.data.(equipmentType := Some(equipment))), who.telegramId, year);
  }

  /** A run of one update is that update. */
  lemma RunOne(s: Store, sess: Session, who: Sender, ev: Event, year: nat)
    ensures Run(s, sess, who, [ev], year) == Dispatch(s, sess, who, ev, year)
  {
  }

  /** `cancel` ends the conversation from any state and writes nothing. */
  lemma CancelAnyState(s: Store, sess: Session, who: Sender, year: nat)
    ensures Dispatch(s, sess, who, Cancel, year) == Outcome(s, Fresh, Answered)
  {
  }

  /** The category and priority buttons are not tied to a state: from any state they store
      their value and move the conversation on. */
  lemma ButtonsAnyState(s: Store, sess: Session, who: Sender, c: Category, p: Priority, year: nat)
    ensures Dispatch(s, sess, who, CategoryPicked(c), year).session == Session(AwaitPriority, sess.data.(category := Some(c)))
    ensures Dispatch(s, sess, who, PriorityPicked(p), year).session == Session(AwaitLocation, sess.data.(priority := Some(p)))
  {
  }

  /** A button pressed out of order leads to a submit without a title, which raises and leaves
      the store and the conversation as they were. */
  lemma SubmitWithoutTitle(s: Store, who: Sender, c: Category, p: Priority, loc: string, year: nat)
    requires c == Software && FormText(loc)
    requires UserByTelegram(s.users, who.telegramId).Some?
    ensures var r := Run(s, Fresh, who, [CategoryPicked(c), PriorityPicked(p), Message(loc)], year);
      && r.reply == Raised(MissingFormField)
      && r.store == s
      && r.session == Session(AwaitLocation, EmptyForm.(category := Some(c), priority := Some(p), location := LocationOf(loc)))
  {
    var tail := [Message(loc)];
    assert [CategoryPicked(c), PriorityPicked(p), Message(loc)] == [CategoryPicked(c), PriorityPicked(p)] + tail;
    PickButtons(s, Fresh, who, c, p, tail, year);
    var s2 := Session(AwaitLocation, EmptyForm.(category := Some(c), priority := Some(p)));
    RunOne(s, s2, who, Message(loc), year);
    DispatchAtLocation(s, s2, who, loc, year);
  }

  // ---------------------------------------------------------------------------------------
  // Invariants

  /** Every update the bot handles keeps the store invariants. */
  lemma DispatchKeepsValid(s: Store, sess: Session, who: Sender, ev: Event, year: nat)
    requires Valid(s)
    ensures Valid(Dispatch(s, sess, who, ev, year).store)
  {
    var r := Dispatch(s, sess, who, ev, year);
    if r.reply.Created? {
      InsertTicketKeepsValid(s, r.reply.ticket);
    } else if r.store != s {
      GetOrCreateKeepsValid(s, who);
    }
  }

  /** Registering a chat identity keeps the store invariants. */
  lemma GetOrCreateKeepsValid(s: Store, who: Sender)
    requires Valid(s) && GetOrCreateUser(s, who).Success?
    ensures Valid(GetOrCreateUser(s, who).value.0)
  {
    if UserByTelegram(s.users, who.telegramId).None? {
      InsertUserKeepsValid(s, User(0, Some(who.telegramId), who.username, Some(who.fullName), None, None, Some(RoleUser)));
    }
  }

  /** Every update the bot handles keeps the numbering invariant, so bot and service creates
      can be mixed freely without a number clash. */
  lemma DispatchKeepsNumbering(s: Store, sess: Session, who: Sender, ev: Event, year: nat)
    requires NumberingConsistent(s.tickets)
    ensures NumberingConsistent(Dispatch(s, sess, who, ev, year).store.tickets)
  {
    var r := Dispatch(s, sess, who, ev, year);
    if r.reply.Created? {
      assert r.store.tickets == s.tickets + [r.reply.ticket];
      BotNumberAgrees(s.tickets, year);
      AppendNextKeepsConsistent(s.tickets, r.reply.ticket, year);
    }
  }
}
