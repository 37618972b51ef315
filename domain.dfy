/** Entities of the reading list: users own tags and items; items carry an
    enum-valued kind, status and priority; the item_tags association links
    items to tags. Also the error outcomes the services raise. */
module Domain {

  /** Surrogate keys (BigInteger autoincrement columns). */
  type Id = nat

  /** Server-assigned timestamps (`now()`), taken as opaque ordered values. */
  type Timestamp = int

  datatype Option<+T> = None | Some(value: T)

  datatype Result<+T> = Ok(value: T) | Err(error: Error)

  /** What a service raises. `NotFound` and `BadRequest` are the HTTPExceptions
      the services raise themselves; `TagsNotFound` is the 400 raised while
      attaching tags, carrying the sorted missing ids; `IntegrityError` is a
      constraint the database rejects at commit (not caught by the services);
      `AttributeError` is a Python runtime error. */
  datatype Error =
    | NotFound(detail: string)
    | BadRequest(detail: string)
    | TagsNotFound(missing: seq<Id>)
    | IntegrityError(constraint: string)
    | AttributeError(name: string)

  /** The HTTP status each outcome reaches the client with (uncaught errors become 500). */
  function HttpStatus(e: Error): (code: int)
    ensures e.NotFound? <==> code == 404
    ensures code == 400 <==> (e.BadRequest? || e.TagsNotFound?)
    ensures code == 500 <==> (e.IntegrityError? || e.AttributeError?)
  {
    match e
    case NotFound(_) => 404
    case BadRequest(_) => 400
    case TagsNotFound(_) => 400
    case IntegrityError(_) => 500
    case AttributeError(_) => 500
  }

  /** The database enum `item_kind`. */
  datatype Kind = Book | Article

  /** The database enum `item_status`. */
  datatype Status = Planned | Reading | Done

  /** The database enum `item_priority`; its declaration order low, normal, high
      is the order the database sorts by. */
  datatype Priority = Low | Normal | High

  /** Position of a priority label in the enum declaration. */
  function PriorityRank(p: Priority): (rank: nat)
    ensures rank < 3
    ensures p == Low <==> rank == 0
    ensures p == High <==> rank == 2
  {
    match p
    case Low => 0
    case Normal => 1
    case High => 2
  }

  function KindLabel(k: Kind): string {
    match k
    case Book => "book"
    case Article => "article"
  }

  function StatusLabel(s: Status): string {
    match s
    case Planned => "planned"
    case Reading => "reading"
    case Done => "done"
  }

  function PriorityLabel(p: Priority): string {
    match p
    case Low => "low"
    case Normal => "normal"
    case High => "high"
  }

  /** Reading a stored `item_kind` label back: only the declared labels are values. */
  function ParseKind(s: string): (r: Option<Kind>)
    ensures r.Some? ==> KindLabel(r.value) == s
  {
    if s == "book" then Some(Book)
    else if s == "article" then Some(Article)
    else None
  }

  function ParseStatus(s: string): (r: Option<Status>)
    ensures r.Some? ==> StatusLabel(r.value) == s
  {
    if s == "planned" then Some(Planned)
    else if s == "reading" then Some(Reading)
    else if s == "done" then Some(Done)
    else None
  }

  function ParsePriority(s: string): (r: Option<Priority>)
    ensures r.Some? ==> PriorityLabel(r.value) == s
  {
    if s == "low" then Some(Low)
    else if s == "normal" then Some(Normal)
    else if s == "high" then Some(High)
    else None
  }

  /** Every enum value is stored under a label that reads back as itself. */
  lemma LabelsRoundTrip(k: Kind, s: Status, p: Priority)
    ensures ParseKind(KindLabel(k)) == Some(k)
    ensures ParseStatus(StatusLabel(s)) == Some(s)
    ensures ParsePriority(PriorityLabel(p)) == Some(p)
  {
  }

  /** A row of `users`. */
  datatype User = User(id: Id, email: string, displayName: string, createdAt: Timestamp)

  /** A row of `tags`. */
  datatype Tag = Tag(id: Id, userId: Id, name: string, createdAt: Timestamp)

  /** A row of `items`; `notes` is the one nullable column. */
  datatype Item = Item(
    id: Id,
    userId: Id,
    title: string,
    kind: Kind,
    status: Status,
    priority: Priority,
    notes: Option<string>,
    createdAt: Timestamp,
    updatedAt: Timestamp)

  /** A row of `item_tags`. */
  datatype ItemTag = ItemTag(itemId: Id, tagId: Id)

  /** One field of a partial-update payload: not sent at all (`exclude_unset`
      drops it), sent as JSON null, or sent with a value. */
  datatype Field<T> = Unset | Null | Sent(value: T)
}
