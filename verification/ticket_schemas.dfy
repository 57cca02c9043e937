/** The ticket request schemas: the enumerations a ticket's category, priority and status range
    over, and the validation `TicketCreate`, `TicketUpdate` and `CommentBase` apply to a request
    before a handler sees it. A pattern `^(a|b)$` accepts exactly the listed words. */
module TicketSchemas {
  import opened Base

  datatype Category = Hardware | Software
  datatype Priority = Low | Medium | High | Critical
  datatype Status = New | InProgress | Resolved | Closed

  function CategoryName(c: Category): string {
    match c
    case Hardware => "hardware"
    case Software => "software"
  }

  function PriorityName(p: Priority): string {
    match p
    case Low => "low"
    case Medium => "medium"
    case High => "high"
    case Critical => "critical"
  }

  function StatusName(s: Status): string {
    match s
    case New => "new"
    case InProgress => "in_progress"
    case Resolved => "resolved"
    case Closed => "closed"
  }

  /** The pattern `^(hardware|software)$`. */
  function ParseCategory(s: string): (r: Option<Category>)
    ensures r.Some? <==> s == "hardware" || s == "software"
    ensures r.Some? ==> CategoryName(r.value) == s
  {
    if s == "hardware" then Some(Hardware)
    else if s == "software" then Some(Software)
    else None
  }

  /** The pattern `^(low|medium|high|critical)$`. */
  function ParsePriority(s: string): (r: Option<Priority>)
    ensures r.Some? <==> s == "low" || s == "medium" || s == "high" || s == "critical"
    ensures r.Some? ==> PriorityName(r.value) == s
  {
    if s == "low" then Some(Low)
    else if s == "medium" then Some(Medium)
    else if s == "high" then Some(High)
    else if s == "critical" then Some(Critical)
    else None
  }

  /** The pattern `^(new|in_progress|resolved|closed)$`. */
  function ParseStatus(s: string): (r: Option<Status>)
    ensures r.Some? <==> s == "new" || s == "in_progress" || s == "resolved" || s == "closed"
    ensures r.Some? ==> StatusName(r.value) == s
  {
    if s == "new" then Some(New)
    else if s == "in_progress" then Some(InProgress)
    else if s == "resolved" then Some(Resolved)
    else if s == "closed" then Some(Closed)
    else None
  }

  /** Every enumeration value's name is accepted by its pattern and read back as that value;
      so no two values share a name. */
  lemma NamesRoundTrip(c: Category, p: Priority, s: Status)
    ensures ParseCategory(CategoryName(c)) == Some(c)
    ensures ParsePriority(PriorityName(p)) == Some(p)
    ensures ParseStatus(StatusName(s)) == Some(s)
  {
  }

  /** `title: str = Field(min_length=3, max_length=200)`. */
  predicate ValidTitle(t: string) {
    3 <= |t| <= 200
  }

  /** The priority a create request gets when it names none. */
  const DefaultPriority: Priority := Medium

  /** A create request as it arrives. A `None` title or category is one left out or sent as
      null, which the required fields refuse alike; the priority distinguishes a field left out,
      which takes the default, from an explicit null, which the non-optional `str` refuses. */
  datatype TicketCreateRequest = TicketCreateRequest(
    title: Option<string>,
    description: Option<string>,
    category: Option<string>,
    priority: Patch<Option<string>>,
    location: Option<string>,
    equipmentType: Option<string>)

  /** A validated `TicketCreate`. */
  datatype TicketCreate = TicketCreate(
    title: string,
    description: Option<string>,
    category: Category,
    priority: Priority,
    location: Option<string>,
    equipmentType: Option<string>)

  /** `TicketCreate` validation: title present with its length bounds, category present and
      matching its pattern, priority left out (the default) or a matching string. */
  function ValidateTicketCreate(r: TicketCreateRequest): (res: Result<TicketCreate>)
    ensures res.Success? <==>
      && r.title.Some? && ValidTitle(r.title.value)
      && r.category.Some? && ParseCategory(r.category.value).Some?
      && (r.priority.Unset? || (r.priority.value.Some? && ParsePriority(r.priority.value.value).Some?))
    ensures r.priority == Set(None) ==> res == Failure(ValidationFailed)
    ensures res.Failure? ==> res.error == ValidationFailed
    ensures res.Success? ==>
      && res.value.title == r.title.value
      && res.value.description == r.description
      && CategoryName(res.value.category) == r.category.value
      && (r.priority.Unset? ==> res.value.priority == Medium)
      && (r.priority.Set? ==> PriorityName(res.value.priority) == r.priority.value.value)
      && res.value.location == r.location
      && res.value.equipmentType == r.equipmentType
  {
    var category := if r.category.None? then None else ParseCategory(r.category.value);
    var priority :=
      match r.priority
      case Unset => Some(DefaultPriority)
      case Set(None) => None
      case Set(Some(p)) => ParsePriority(p);
    if r.title.None? || !ValidTitle(r.title.value) || category.None? || priority.None? then Failure(ValidationFailed)
    else Success(TicketCreate(r.title.value, r.description, category.value, priority.value,
                              r.location, r.equipmentType))
  }

  /** The request a client would send for a validated create, every field written out. */
  function CreateRequestOf(c: TicketCreate): TicketCreateRequest {
    TicketCreateRequest(Some(c.title), c.description, Some(CategoryName(c.category)),
                        Set(Some(PriorityName(c.priority))), c.location, c.equipmentType)
  }

  /** Validation gives back exactly the create a request was written from: nothing is lost or
      defaulted when every field is sent. */
  lemma CreateRequestRoundTrip(c: TicketCreate)
    requires ValidTitle(c.title)
    ensures ValidateTicketCreate(CreateRequestOf(c)) == Success(c)
  {
    NamesRoundTrip(c.category, c.priority, New);
  }

  /** An update request as it arrives. `None` stands both for a field left out and for an
      explicit null: the update handler skips both alike. */
  datatype TicketUpdateRequest = TicketUpdateRequest(
    title: Option<string>,
    description: Option<string>,
    category: Option<string>,
    priority: Option<string>,
    status: Option<string>,
    assignedTo: Option<int>,
    location: Option<string>,
    equipmentType: Option<string>)

  /** A validated `TicketUpdate`: every field optional. */
  datatype TicketUpdate = TicketUpdate(
    title: Option<string>,
    description: Option<string>,
    category: Option<Category>,
    priority: Option<Priority>,
    status: Option<Status>,
    assignedTo: Option<int>,
    location: Option<string>,
    equipmentType: Option<string>)

  /** `TicketUpdate` validation: each present field must pass its create-time check. */
  function ValidateTicketUpdate(r: TicketUpdateRequest): (res: Result<TicketUpdate>)
    ensures res.Success? <==>
      && (r.title.None? || ValidTitle(r.title.value))
      && (r.category.None? || ParseCategory(r.category.value).Some?)
      && (r.priority.None? || ParsePriority(r.priority.value).Some?)
      && (r.status.None? || ParseStatus(r.status.value).Some?)
    ensures res.Failure? ==> res.error == ValidationFailed
    ensures res.Success? ==>
      && res.value.title == r.title
      && res.value.description == r.description
      && (res.value.category.Some? <==> r.category.Some?)
      && (res.value.category.Some? ==> CategoryName(res.value.category.value) == r.category.value)
      && (res.value.priority.Some? <==> r.priority.Some?)
      && (res.value.priority.Some? ==> PriorityName(res.value.priority.value) == r.priority.value)
      && (res.value.status.Some? <==> r.status.Some?)
      && (res.value.status.Some? ==> StatusName(res.value.status.value) == r.status.value)
      && res.value.assignedTo == r.assignedTo
      && res.value.location == r.location
      && res.value.equipmentType == r.equipmentType
  {
    if r.title.Some? && !ValidTitle(r.title.value) then Failure(ValidationFailed)
    else if r.category.Some? && ParseCategory(r.category.value).None? then Failure(ValidationFailed)
    else if r.priority.Some? && ParsePriority(r.priority.value).None? then Failure(ValidationFailed)
    else if r.status.Some? && ParseStatus(r.status.value).None? then Failure(ValidationFailed)
    else
      Success(TicketUpdate(
        r.title, r.description,
        if r.category.Some? then ParseCategory(r.category.value) else None,
        if r.priority.Some? then ParsePriority(r.priority.value) else None,
        if r.status.Some? then ParseStatus(r.status.value) else None,
        r.assignedTo, r.location, r.equipmentType))
  }

  /** A comment request body as `CommentBase` sees it. */
  datatype CommentRequest = CommentRequest(text: string, isInternal: Option<bool>)

  /** A validated `CommentBase`. */
  datatype CommentBase = CommentBase(text: string, isInternal: bool)

  /** `CommentBase` validation: non-empty text; `is_internal` defaults to false. */
  function ValidateComment(r: CommentRequest): (res: Result<CommentBase>)
    ensures res.Success? <==> |r.text| >= 1
    ensures res.Failure? ==> res.error == ValidationFailed
    ensures res.Success? ==> res.value.text == r.text && res.value.isInternal == r.isInternal.GetOr(false)
  {
    if |r.text| == 0 then Failure(ValidationFailed)
    else Success(CommentBase(r.text, r.isInternal.GetOr(false)))
  }
}
