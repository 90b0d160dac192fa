/**
  The draft store's Update: optional fields compiled into SET clauses with numbered
  placeholders and a matching argument list, and the meaning the database gives them.
 */
module DraftStore {
  import opened Wrappers
  import opened Text
  import opened Database

  datatype Patch = Patch(
    subject: Option<Bytes>, to: Option<seq<Address>>, cc: Option<seq<Address>>, bcc: Option<seq<Address>>,
    textBody: Option<Bytes>, htmlBody: Option<Bytes>, scheduledAt: Option<Time>, status: Option<ReviewStatus>,
    note: Option<Bytes>, reviewedAt: Option<Time>, reviewedBy: Option<Id>, message: Option<Id>, metadata: Option<Bytes>)

  const NO_PATCH := Patch(None, None, None, None, None, None, None, None, None, None, None, None, None)

  datatype Column =
    | Subject | ToAddresses | CcAddresses | BccAddresses | BodyText | BodyHtml | ScheduledAt | ReviewState
    | ReviewNote | ReviewedAt | ReviewedBy | MessageId | Metadata | UpdatedAt

  datatype Value =
    | TextValue(text: Bytes) | AddressesValue(addresses: seq<Address>) | TimeValue(time: Time)
    | IdValue(id: Id) | StatusValue(status: ReviewStatus) | JsonValue(json: Bytes)

  /** "column = $placeholder" */
  datatype SetClause = SetClause(column: Column, placeholder: int)

  /** UPDATE drafts SET clauses WHERE org_id = $org AND id = $id, with args for $1, $2, … */
  datatype UpdateStatement = UpdateStatement(clauses: seq<SetClause>, org: int, id: int, args: seq<Value>)

  // ---- What the database does with a statement ----

  function Bound(args: seq<Value>, placeholder: int): Option<Value>
  {
    if 1 <= placeholder <= |args| then Some(args[placeholder - 1]) else None
  }

  /** Assigning a value of another type is an error. */
  function Assign(d: Draft, column: Column, v: Value): Option<Draft>
  {
    match (column, v)
    case (Subject, TextValue(x)) => Some(d.(subject := x))
    case (ToAddresses, AddressesValue(x)) => Some(d.(to := x))
    case (CcAddresses, AddressesValue(x)) => Some(d.(cc := x))
    case (BccAddresses, AddressesValue(x)) => Some(d.(bcc := x))
    case (BodyText, TextValue(x)) => Some(d.(textBody := x))
    case (BodyHtml, TextValue(x)) => Some(d.(htmlBody := x))
    case (ScheduledAt, TimeValue(x)) => Some(d.(scheduledAt := Some(x)))
    case (ReviewState, StatusValue(x)) => Some(d.(status := x))
    case (ReviewNote, TextValue(x)) => Some(d.(note := x))
    case (ReviewedAt, TimeValue(x)) => Some(d.(reviewedAt := Some(x)))
    case (ReviewedBy, IdValue(x)) => Some(d.(reviewedBy := Some(x)))
    case (MessageId, IdValue(x)) => Some(d.(message := Some(x)))
    case (Metadata, JsonValue(x)) => Some(d.(metadata := x))
    case (UpdatedAt, TimeValue(x)) => Some(d.(updatedAt := x))
    case (_, _) => None
  }

  /** Runs the SET list on a row; naming a column twice is an error. */
  function RunSet(d: Draft, clauses: seq<SetClause>, args: seq<Value>, done: set<Column>): Option<Draft>
    decreases |clauses|
  {
    if clauses == [] then Some(d)
    else
      var c := clauses[0];
      match Bound(args, c.placeholder)
      case None => None
      case Some(v) =>
        if c.column in done then None
        else match Assign(d, c.column, v)
          case None => None
          case Some(d') => RunSet(d', clauses[1..], args, done + {c.column})
  }

  function RunUpdate(t: Tables, s: UpdateStatement): Result<Tables, Error>
  {
    match (Bound(s.args, s.org), Bound(s.args, s.id))
    case (Some(IdValue(org)), Some(IdValue(id))) =>
      var row :- t.GetDraft(org, id);
      (match RunSet(row, s.clauses, s.args, {})
       case None => Failure(Violation)
       case Some(row') =>
         if row'.message != row.message && row'.message.Some?
         && row'.message.value !in t.messages then Failure(Violation)
         else Success(t.PutDraft(id, row')))
    case (_, _) => Failure(Violation)
  }

  // ---- What a patch means ----

  function Or<T>(o: Option<T>, otherwise: T): T
  {
    match o
    case Some(v) => v
    case None => otherwise
  }

  function OrOld<T>(o: Option<T>, old': Option<T>): Option<T>
  {
    if o.Some? then o else old'
  }

  /** Each given field replaces its column; the update time moves unless nothing is given. */
  function Patched(d: Draft, p: Patch, now: Time): Draft
  {
    if p == NO_PATCH then d
    else
      d.(subject := Or(p.subject, d.subject), to := Or(p.to, d.to), cc := Or(p.cc, d.cc), bcc := Or(p.bcc, d.bcc),
         textBody := Or(p.textBody, d.textBody), htmlBody := Or(p.htmlBody, d.htmlBody),
         scheduledAt := OrOld(p.scheduledAt, d.scheduledAt), status := Or(p.status, d.status),
         note := Or(p.note, d.note), reviewedAt := OrOld(p.reviewedAt, d.reviewedAt),
         reviewedBy := OrOld(p.reviewedBy, d.reviewedBy), message := OrOld(p.message, d.message),
         metadata := Or(p.metadata, d.metadata), updatedAt := now)
  }

  function UpdateOutcome(t: Tables, org: Id, id: Id, p: Patch, now: Time): Result<Tables, Error>
  {
    var row :- t.GetDraft(org, id);
    var row' := Patched(row, p, now);
    if row'.message != row.message && row'.message.Some? && row'.message.value !in t.messages then Failure(Violation)
    else Success(t.PutDraft(id, row'))
  }

  // ---- Rows seen column by column ----

  datatype Assignment = Assignment(column: Column, value: Value)

  function Get(d: Draft, c: Column): Option<Value>
  {
    match c
    case Subject => Some(TextValue(d.subject))
    case ToAddresses => Some(AddressesValue(d.to))
    case CcAddresses => Some(AddressesValue(d.cc))
    case BccAddresses => Some(AddressesValue(d.bcc))
    case BodyText => Some(TextValue(d.textBody))
    case BodyHtml => Some(TextValue(d.htmlBody))
    case ScheduledAt => TimeArg(d.scheduledAt)
    case ReviewState => Some(StatusValue(d.status))
    case ReviewNote => Some(TextValue(d.note))
    case ReviewedAt => TimeArg(d.reviewedAt)
    case ReviewedBy => IdArg(d.reviewedBy)
    case MessageId => IdArg(d.message)
    case Metadata => Some(JsonValue(d.metadata))
    case UpdatedAt => Some(TimeValue(d.updatedAt))
  }

  function TextArg(o: Option<Bytes>): Option<Value>
  {
    match o
    case Some(x) => Some(TextValue(x))
    case None => None
  }

  function AddressesArg(o: Option<seq<Address>>): Option<Value>
  {
    match o
    case Some(x) => Some(AddressesValue(x))
    case None => None
  }

  function TimeArg(o: Option<Time>): Option<Value>
  {
    match o
    case Some(x) => Some(TimeValue(x))
    case None => None
  }

  function IdArg(o: Option<Id>): Option<Value>
  {
    match o
    case Some(x) => Some(IdValue(x))
    case None => None
  }

  function StatusArg(o: Option<ReviewStatus>): Option<Value>
  {
    match o
    case Some(x) => Some(StatusValue(x))
    case None => None
  }

  function JsonArg(o: Option<Bytes>): Option<Value>
  {
    match o
    case Some(x) => Some(JsonValue(x))
    case None => None
  }

  /** The value a patch gives a column. */
  function Wanted(p: Patch, now: Time, c: Column): Option<Value>
  {
    match c
    case Subject => TextArg(p.subject)
    case ToAddresses => AddressesArg(p.to)
    case CcAddresses => AddressesArg(p.cc)
    case BccAddresses => AddressesArg(p.bcc)
    case BodyText => TextArg(p.textBody)
    case BodyHtml => TextArg(p.htmlBody)
    case ScheduledAt => TimeArg(p.scheduledAt)
    case ReviewState => StatusArg(p.status)
    case ReviewNote => TextArg(p.note)
    case ReviewedAt => TimeArg(p.reviewedAt)
    case ReviewedBy => IdArg(p.reviewedBy)
    case MessageId => IdArg(p.message)
    case Metadata => JsonArg(p.metadata)
    case UpdatedAt => Some(TimeValue(now))
  }

  /** The position of a column in the builder's visit. */
  function Rank(c: Column): nat
  {
    match c
    case Subject => 0
    case ToAddresses => 1
    case CcAddresses => 2
    case BccAddresses => 3
    case BodyText => 4
    case BodyHtml => 5
    case ScheduledAt => 6
    case ReviewState => 7
    case ReviewNote => 8
    case ReviewedAt => 9
    case ReviewedBy => 10
    case MessageId => 11
    case Metadata => 12
    case UpdatedAt => 13
  }

  lemma RankInjective(c: Column, d: Column)
    requires Rank(c) == Rank(d)
    ensures c == d
  {
  }

  ghost predicate Names(todo: seq<Assignment>, c: Column)
  {
    exists i :: 0 <= i < |todo| && todo[i].column == c
  }

  /** todo assigns exactly what the patch gives the columns of rank below k, in rank order. */
  ghost predicate Lists(todo: seq<Assignment>, k: nat, p: Patch, now: Time)
  {
    && (forall i, j :: 0 <= i < j < |todo| ==> Rank(todo[i].column) < Rank(todo[j].column))
    && (forall i :: 0 <= i < |todo| ==>
        Rank(todo[i].column) < k && Wanted(p, now, todo[i].column) == Some(todo[i].value))
    && (forall c {:trigger Names(todo, c)} :: Rank(c) < k && Wanted(p, now, c).Some? ==> Names(todo, c))
  }

  function Step(v: Option<Value>, column: Column): seq<Assignment>
  {
    match v
    case Some(x) => [Assignment(column, x)]
    case None => []
  }

  lemma ListsStep(todo: seq<Assignment>, k: nat, p: Patch, now: Time, column: Column)
    requires Lists(todo, k, p, now) && Rank(column) == k
    ensures Lists(todo + Step(Wanted(p, now, column), column), k + 1, p, now)
  {
    var more := todo + Step(Wanted(p, now, column), column);
    forall c | Rank(c) < k + 1 && Wanted(p, now, c).Some?
      ensures Names(more, c)
    {
      if Rank(c) == k {
        RankInjective(c, column);
        assert more[|todo|].column == c;
      } else {
        assert Names(todo, c);
        var i :| 0 <= i < |todo| && todo[i].column == c;
        assert more[i].column == c;
      }
    }
  }

  /** Assigns in order, refusing a repeated column or a value of the wrong type. */
  function AssignAll(d: Draft, todo: seq<Assignment>, done: set<Column>): Option<Draft>
    decreases |todo|
  {
    if todo == [] then Some(d)
    else if todo[0].column in done then None
    else match Assign(d, todo[0].column, todo[0].value)
      case None => None
      case Some(d') => AssignAll(d', todo[1..], done + {todo[0].column})
  }

  /** The columns a patch cannot reach. */
  ghost predicate SameRest(a: Draft, b: Draft)
  {
    a.org == b.org && a.inbox == b.inbox && a.thread == b.thread && a.createdAt == b.createdAt
  }

  lemma AssignSetsOneColumn(d: Draft, c: Column, v: Value)
    requires Assign(d, c, v).Some?
    ensures
      var d' := Assign(d, c, v).value;
      SameRest(d, d') && forall x :: Get(d', x) == if x == c then Some(v) else Get(d, x)
  {
    var d' := Assign(d, c, v).value;
    forall x
      ensures Get(d', x) == if x == c then Some(v) else Get(d, x)
    {
      match x {
        case Subject =>
        case _ =>
      }
    }
  }

  lemma WantedIsAssignable(p: Patch, now: Time, c: Column, d: Draft)
    ensures Wanted(p, now, c).Some? ==> Assign(d, c, Wanted(p, now, c).value).Some?
  {
  }

  lemma {:induction false} AssignAllReaches(d: Draft, todo: seq<Assignment>, done: set<Column>, p: Patch, now: Time)
    requires forall i, j :: 0 <= i < j < |todo| ==> Rank(todo[i].column) < Rank(todo[j].column)
    requires forall i :: 0 <= i < |todo| ==>
             todo[i].column !in done && Wanted(p, now, todo[i].column) == Some(todo[i].value)
    ensures AssignAll(d, todo, done).Some?
    ensures
      var d' := AssignAll(d, todo, done).value;
      SameRest(d, d') && forall x :: Get(d', x) == if Names(todo, x) then Wanted(p, now, x) else Get(d, x)
    decreases |todo|
  {
    if todo != [] {
      var c, v := todo[0].column, todo[0].value;
      WantedIsAssignable(p, now, c, d);
      AssignSetsOneColumn(d, c, v);
      var next := Assign(d, c, v).value;
      forall i | 0 <= i < |todo[1..]|
        ensures todo[1..][i].column !in done + {c}
      {
        assert todo[1..][i] == todo[i + 1];
        assert Rank(todo[0].column) < Rank(todo[i + 1].column);
      }
      AssignAllReaches(next, todo[1..], done + {c}, p, now);
      forall x
        ensures Names(todo, x) <==> x == c || Names(todo[1..], x)
      {
        if Names(todo[1..], x) {
          var i :| 0 <= i < |todo[1..]| && todo[1..][i].column == x;
          assert todo[i + 1].column == x;
        }
        if Names(todo, x) && x != c {
          var i :| 0 <= i < |todo| && todo[i].column == x;
          assert todo[1..][i - 1].column == x;
        }
      }
    }
  }

  lemma SameContents(a: Draft, b: Draft)
    requires forall x :: Get(a, x) == Get(b, x)
    ensures a.subject == b.subject && a.to == b.to && a.cc == b.cc && a.bcc == b.bcc
    ensures a.textBody == b.textBody && a.htmlBody == b.htmlBody && a.scheduledAt == b.scheduledAt
  {
    assert Get(a, Subject) == Get(b, Subject) && Get(a, ToAddresses) == Get(b, ToAddresses);
    assert Get(a, CcAddresses) == Get(b, CcAddresses) && Get(a, BccAddresses) == Get(b, BccAddresses);
    assert Get(a, BodyText) == Get(b, BodyText) && Get(a, BodyHtml) == Get(b, BodyHtml);
    assert Get(a, ScheduledAt) == Get(b, ScheduledAt);
  }

  lemma SameReview(a: Draft, b: Draft)
    requires forall x :: Get(a, x) == Get(b, x)
    ensures a.status == b.status && a.note == b.note && a.reviewedAt == b.reviewedAt && a.reviewedBy == b.reviewedBy
    ensures a.message == b.message && a.metadata == b.metadata && a.updatedAt == b.updatedAt
  {
    assert Get(a, ReviewState) == Get(b, ReviewState) && Get(a, ReviewNote) == Get(b, ReviewNote);
    assert Get(a, ReviewedAt) == Get(b, ReviewedAt) && Get(a, ReviewedBy) == Get(b, ReviewedBy);
    assert Get(a, MessageId) == Get(b, MessageId) && Get(a, Metadata) == Get(b, Metadata);
    assert Get(a, UpdatedAt) == Get(b, UpdatedAt);
  }

  lemma SameColumns(a: Draft, b: Draft)
    requires SameRest(a, b) && forall x :: Get(a, x) == Get(b, x)
    ensures a == b
  {
    SameContents(a, b);
    SameReview(a, b);
  }

  lemma PatchedColumns(d: Draft, p: Patch, now: Time, x: Column)
    requires p != NO_PATCH
    ensures Get(Patched(d, p, now), x) == if Wanted(p, now, x).Some? then Wanted(p, now, x) else Get(d, x)
  {
  }

  lemma NothingWanted(p: Patch, now: Time)
    ensures (forall c :: Rank(c) < 13 ==> Wanted(p, now, c).None?) <==> p == NO_PATCH
  {
    if forall c :: Rank(c) < 13 ==> Wanted(p, now, c).None? {
      assert Wanted(p, now, Subject).None? && Wanted(p, now, ToAddresses).None? && Wanted(p, now, CcAddresses).None?;
      assert Wanted(p, now, BccAddresses).None? && Wanted(p, now, BodyText).None? && Wanted(p, now, BodyHtml).None?;
      assert Wanted(p, now, ScheduledAt).None? && Wanted(p, now, ReviewState).None? && Wanted(p, now, ReviewNote).None?;
      assert Wanted(p, now, ReviewedAt).None? && Wanted(p, now, ReviewedBy).None? && Wanted(p, now, MessageId).None?;
      assert Wanted(p, now, Metadata).None?;
    }
  }

  /** A complete list of assignments turns any row into the patched row. */
  lemma ListedIsPatched(d: Draft, todo: seq<Assignment>, p: Patch, now: Time)
    requires p != NO_PATCH && Lists(todo, 14, p, now)
    ensures AssignAll(d, todo, {}) == Some(Patched(d, p, now))
  {
    AssignAllReaches(d, todo, {}, p, now);
    var d' := AssignAll(d, todo, {}).value;
    forall x
      ensures Get(d', x) == Get(Patched(d, p, now), x)
    {
      PatchedColumns(d, p, now, x);
      assert Rank(x) < 14;
    }
    SameColumns(d', Patched(d, p, now));
  }

  // ---- The builder ----

  /** The setClauses, args and argIdx that Update grows. */
  class Builder {
    var setClauses: seq<SetClause>
    var args: seq<Value>
    var argIdx: int
    ghost var listed: seq<Assignment>

    constructor ()
      ensures Valid() && listed == []
    {
      setClauses, args, argIdx, listed := [], [], 1, [];
    }

    /** Every placeholder binds the argument appended with its clause. */
    ghost predicate Valid()
      reads this
    {
      && argIdx == |args| + 1
      && |setClauses| == |args| == |listed|
      && forall i :: 0 <= i < |args| ==>
        setClauses[i] == SetClause(listed[i].column, i + 1) && args[i] == listed[i].value
    }

    method Set(column: Column, value: Value)
      requires Valid()
      modifies this
      ensures Valid() && listed == old(listed) + [Assignment(column, value)]
    {
      setClauses := setClauses + [SetClause(column, argIdx)];
      args := args + [value];
      argIdx := argIdx + 1;
      listed := listed + [Assignment(column, value)];
    }

    /** One "if patch.Field != nil" of Update. */
    method SetGiven(v: Option<Value>, column: Column)
      requires Valid()
      modifies this
      ensures Valid() && listed == old(listed) + Step(v, column)
    {
      if v.Some? {
        Set(column, v.value);
      }
    }
  }

  /** Clauses whose placeholders bind their own arguments mean the assignments. */
  lemma {:induction false} RunSetIsAssignAll(d: Draft, clauses: seq<SetClause>, args: seq<Value>, todo: seq<Assignment>,
                                             done: set<Column>)
    requires |clauses| == |todo|
    requires forall i :: 0 <= i < |clauses| ==>
      clauses[i].column == todo[i].column && Bound(args, clauses[i].placeholder) == Some(todo[i].value)
    ensures RunSet(d, clauses, args, done) == AssignAll(d, todo, done)
    decreases |clauses|
  {
    if clauses != [] && clauses[0].column !in done {
      var next := Assign(d, todo[0].column, todo[0].value);
      if next.Some? {
        RunSetIsAssignAll(next.value, clauses[1..], args, todo[1..], done + {clauses[0].column});
      }
    }
  }

  /** Adds the next field of the visit, keeping the list complete so far. */
  method Add(b: Builder, ghost k: nat, ghost p: Patch, ghost now: Time, v: Option<Value>, column: Column)
    requires b.Valid() && Lists(b.listed, k, p, now)
    requires Rank(column) == k && v == Wanted(p, now, column)
    modifies b
    ensures b.Valid() && Lists(b.listed, k + 1, p, now)
  {
    b.SetGiven(v, column);
    ListsStep(old(b.listed), k, p, now, column);
  }

  method AddContents(b: Builder, p: Patch, ghost now: Time)
    requires b.Valid() && Lists(b.listed, 0, p, now)
    modifies b
    ensures b.Valid() && Lists(b.listed, 7, p, now)
  {
    Add(b, 0, p, now, TextArg(p.subject), Subject);
    Add(b, 1, p, now, AddressesArg(p.to), ToAddresses);
    Add(b, 2, p, now, AddressesArg(p.cc), CcAddresses);
    Add(b, 3, p, now, AddressesArg(p.bcc), BccAddresses);
    Add(b, 4, p, now, TextArg(p.textBody), BodyText);
    Add(b, 5, p, now, TextArg(p.htmlBody), BodyHtml);
    Add(b, 6, p, now, TimeArg(p.scheduledAt), ScheduledAt);
  }

  method AddReview(b: Builder, p: Patch, ghost now: Time)
    requires b.Valid() && Lists(b.listed, 7, p, now)
    modifies b
    ensures b.Valid() && Lists(b.listed, 10, p, now)
  {
    Add(b, 7, p, now, StatusArg(p.status), ReviewState);
    Add(b, 8, p, now, TextArg(p.note), ReviewNote);
    Add(b, 9, p, now, TimeArg(p.reviewedAt), ReviewedAt);
  }

  method AddOutcome(b: Builder, p: Patch, ghost now: Time)
    requires b.Valid() && Lists(b.listed, 10, p, now)
    modifies b
    ensures b.Valid() && Lists(b.listed, 13, p, now)
  {
    Add(b, 10, p, now, IdArg(p.reviewedBy), ReviewedBy);
    Add(b, 11, p, now, IdArg(p.message), MessageId);
    Add(b, 12, p, now, JsonArg(p.metadata), Metadata);
  }

  /** Builders that listed the thirteen fields are empty only for the empty patch. */
  lemma EmptyOnlyForNoPatch(todo: seq<Assignment>, p: Patch, now: Time)
    requires Lists(todo, 13, p, now)
    ensures todo == [] <==> p == NO_PATCH
  {
    NothingWanted(p, now);
    if todo != [] {
      assert Wanted(p, now, todo[0].column).Some?;
    } else {
      forall c | Rank(c) < 13
        ensures Wanted(p, now, c).None?
      {
        assert !Names(todo, c);
      }
    }
  }

  /** Any row becomes the patched row when the clauses bind a complete list. */
  lemma ClausesMeanPatch(d: Draft, clauses: seq<SetClause>, args: seq<Value>, todo: seq<Assignment>, p: Patch,
                         now: Time)
    requires p != NO_PATCH && Lists(todo, 14, p, now) && |clauses| == |todo|
    requires forall i :: 0 <= i < |clauses| ==>
      clauses[i].column == todo[i].column && Bound(args, clauses[i].placeholder) == Some(todo[i].value)
    ensures RunSet(d, clauses, args, {}) == Some(Patched(d, p, now))
  {
    RunSetIsAssignAll(d, clauses, args, todo, {});
    ListedIsPatched(d, todo, p, now);
  }

  /** The text and arguments that Update sends; none when no field is given. */
  method Compile(org: Id, id: Id, p: Patch, now: Time) returns (s: Option<UpdateStatement>)
    ensures s.None? <==> p == NO_PATCH
    ensures s.Some? ==>
              && |s.value.args| == |s.value.clauses| + 2
              && Bound(s.value.args, s.value.org) == Some(IdValue(org))
              && Bound(s.value.args, s.value.id) == Some(IdValue(id))
              && forall d: Draft :: RunSet(d, s.value.clauses, s.value.args, {}) == Some(Patched(d, p, now))
  {
    var b := new Builder();
    AddContents(b, p, now);
    AddReview(b, p, now);
    AddOutcome(b, p, now);
    EmptyOnlyForNoPatch(b.listed, p, now);
    if |b.setClauses| == 0 {
      return None;
    }
    Add(b, 13, p, now, Some(TimeValue(now)), UpdatedAt);
    var args := b.args + [IdValue(org), IdValue(id)];
    forall d: Draft
      ensures RunSet(d, b.setClauses, args, {}) == Some(Patched(d, p, now))
    {
      ClausesMeanPatch(d, b.setClauses, args, b.listed, p, now);
    }
    s := Some(UpdateStatement(b.setClauses, b.argIdx, b.argIdx + 1, args));
  }

  /** PostgresDraftStore.Update */
  method Update(db: Connection, org: Id, id: Id, p: Patch, now: Time) returns (r: Result<Draft, Error>)
    requires !db.aborted && !db.faulted
    modifies db
    ensures db.saved == old(db.saved)
    ensures db.Reliable() ==> !db.faulted
    ensures r.Success? ==>
              && !db.aborted && !db.faulted
              && UpdateOutcome(old(db.tables), org, id, p, now) == Success(db.tables)
              && db.tables.GetDraft(org, id) == r
    ensures r.Failure? ==> db.faulted || UpdateOutcome(old(db.tables), org, id, p, now) == Failure(r.error)
  {
    var statement := Compile(org, id, p, now);
    if statement.None? {
      r := db.Query(db.tables.GetDraft(org, id));
      if r.Success? {
        assert db.tables.PutDraft(id, r.value) == db.tables;
      }
      return;
    }
    assert RunUpdate(db.tables, statement.value) == UpdateOutcome(db.tables, org, id, p, now);
    var done := db.Exec(RunUpdate(db.tables, statement.value));
    if done.Failure? {
      return Failure(done.error);
    }
    r := db.tables.GetDraft(org, id);
  }
}
