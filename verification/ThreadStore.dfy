/**
  The thread store's List: optional filters compiled into a WHERE clause with numbered placeholders
  and a matching argument list, the meaning the database gives them, and the page cut from the answer.
 */
module ThreadStore {
  import opened Wrappers
  import opened Text
  import opened Database
  import opened KeysetPages
  import Pagination
  import TableInvariants

  datatype ListQuery = ListQuery(
    inbox: Id, status: Option<Bytes>, labelId: Option<Id>, isRead: Option<bool>, isStarred: Option<bool>,
    cursor: Bytes, limit: int)

  /** Pairs (thread, label) of thread_labels. */
  type Labels = set<(Id, Id)>

  // ---- The text of a query ----

  datatype Column = OrgId | InboxId | Status | IsRead | IsStarred

  /** A condition over operands: placeholders in the text, values once the arguments are bound. */
  datatype Condition<T> =
    | Equals(column: Column, operand: T)
    | HasLabel(operand: T)
    | RowBefore(at: T, id: T)

  datatype Arg = IdArg(id: Id) | TextArg(text: Bytes) | FlagArg(flag: bool) | CountArg(count: int)

  /** SELECT … WHERE the conjunction ORDER BY last_message_at DESC NULLS LAST, id DESC LIMIT $limit */
  datatype Statement = Statement(where: seq<Condition<int>>, limit: int, args: seq<Arg>)

  // ---- What the database does with it ----

  function Bound(args: seq<Arg>, placeholder: int): Option<Arg>
  {
    if 1 <= placeholder <= |args| then Some(args[placeholder - 1]) else None
  }

  function Bind(c: Condition<int>, args: seq<Arg>): Option<Condition<Arg>>
  {
    match c
    case Equals(column, p) => (match Bound(args, p) case Some(v) => Some(Equals(column, v)) case None => None)
    case HasLabel(p) => (match Bound(args, p) case Some(v) => Some(HasLabel(v)) case None => None)
    case RowBefore(p, q) =>
      (match (Bound(args, p), Bound(args, q)) case (Some(v), Some(w)) => Some(RowBefore(v, w)) case (_, _) => None)
  }

  /** How times and ids are written into a cursor and read back by the casts to timestamptz and uuid. */
  datatype Casts = Casts(showTime: Time -> Bytes, showId: Id -> Bytes, readTime: Bytes -> Option<Time>,
                         readId: Bytes -> Option<Id>)
  {
    ghost predicate Faithful()
    {
      && (forall t :: readTime(showTime(t)) == Some(t) && '|' !in showTime(t))
      && (forall i :: readId(showId(i)) == Some(i) && '|' !in showId(i))
      && readTime([]) == None
    }

    static function KeyOf(at: Option<Time>, id: Option<Id>): Option<Key>
    {
      match (at, id)
      case (Some(t), Some(i)) => Some(Key(t, i))
      case (_, _) => None
    }

    function Keyed(): Codec
    {
      Codec((k: Key) => [showTime(k.createdAt), showId(k.id)],
            (at: Bytes, id: Bytes) => KeyOf(readTime(at), readId(id)))
    }
  }

  /** A condition that the database can evaluate: operands of the column's type, casts that succeed. */
  predicate Evaluable(c: Condition<Arg>, casts: Casts)
  {
    match c
    case Equals(OrgId, v) => v.IdArg?
    case Equals(InboxId, v) => v.IdArg?
    case Equals(Status, v) => v.TextArg?
    case Equals(IsRead, v) => v.FlagArg?
    case Equals(IsStarred, v) => v.FlagArg?
    case HasLabel(v) => v.IdArg?
    case RowBefore(v, w) => v.TextArg? && w.TextArg? && casts.readTime(v.text).Some? && casts.readId(w.text).Some?
  }

  datatype Truth = True | False | Unknown

  function Of(b: bool): Truth
  {
    if b then True else False
  }

  function And(a: Truth, b: Truth): Truth
  {
    if a == False || b == False then False else if a == Unknown || b == Unknown then Unknown else True
  }

  function StatusText(s: ThreadStatus): Bytes
  {
    match s
    case Open => "open"
    case Closed => "closed"
    case Spam => "spam"
    case Trash => "trash"
  }

  /** The comparison of a row that holds a NULL is neither true nor false. */
  function Evaluate(c: Condition<Arg>, row: Thread, id: Id, labels: Labels, casts: Casts): Truth
    requires Evaluable(c, casts)
  {
    match c
    case Equals(OrgId, v) => Of(row.org == v.id)
    case Equals(InboxId, v) => Of(row.inbox == v.id)
    case Equals(Status, v) => Of(StatusText(row.status) == v.text)
    case Equals(IsRead, v) => Of(row.isRead == v.flag)
    case Equals(IsStarred, v) => Of(row.isStarred == v.flag)
    case HasLabel(v) => Of((id, v.id) in labels)
    case RowBefore(v, w) =>
      if row.lastMessageAt.None? then Unknown
      else
        var at, last := casts.readTime(v.text).value, row.lastMessageAt.value;
        Of(last < at || (last == at && id < casts.readId(w.text).value))
  }

  predicate AllEvaluable(cs: seq<Condition<Arg>>, casts: Casts)
  {
    forall c :: c in cs ==> Evaluable(c, casts)
  }

  function EvaluateAll(cs: seq<Condition<Arg>>, row: Thread, id: Id, labels: Labels, casts: Casts): Truth
    requires AllEvaluable(cs, casts)
  {
    if cs == [] then True
    else And(EvaluateAll(cs[..|cs| - 1], row, id, labels, casts), Evaluate(cs[|cs| - 1], row, id, labels, casts))
  }

  function Matching(threads: map<Id, Thread>, labels: Labels, cs: seq<Condition<Arg>>, casts: Casts): set<Id>
    requires AllEvaluable(cs, casts)
  {
    set id | id in threads && EvaluateAll(cs, threads[id], id, labels, casts) == True
  }

  function BindAll(cs: seq<Condition<int>>, args: seq<Arg>): Option<seq<Condition<Arg>>>
  {
    if cs == [] then Some([])
    else match (BindAll(cs[..|cs| - 1], args), Bind(cs[|cs| - 1], args))
      case (Some(before), Some(last)) => Some(before + [last])
      case (_, _) => None
  }

  /** ORDER BY last_message_at DESC NULLS LAST, id DESC */
  function Ordered(threads: map<Id, Thread>, kept: set<Id>): seq<Id>
  {
    Ids(Scan(Dated(threads, kept), Descending)) + Ids(Scan(Undated(threads, kept), Descending))
  }

  function Dated(threads: map<Id, Thread>, kept: set<Id>): set<Key>
  {
    set id | id in kept && id in threads && threads[id].lastMessageAt.Some? :: Key(threads[id].lastMessageAt.value, id)
  }

  function Undated(threads: map<Id, Thread>, kept: set<Id>): set<Key>
  {
    set id | id in kept && id in threads && threads[id].lastMessageAt.None? :: Key(0, id)
  }

  function Ids(keys: seq<Key>): (ids: seq<Id>)
    ensures |ids| == |keys|
    ensures forall i :: 0 <= i < |keys| ==> ids[i] == keys[i].id
  {
    if keys == [] then [] else Ids(keys[..|keys| - 1]) + [keys[|keys| - 1].id]
  }

  function RunSelect(threads: map<Id, Thread>, labels: Labels, s: Statement, casts: Casts): Option<seq<Id>>
  {
    match (BindAll(s.where, s.args), Bound(s.args, s.limit))
    case (Some(cs), Some(CountArg(n))) =>
      if n < 0 || !AllEvaluable(cs, casts) then None
      else
        var all := Ordered(threads, Matching(threads, labels, cs, casts));
        Some(all[..Min(n, |all|)])
    case (_, _) => None
  }

  // ---- What a query means ----

  /** The status goes by this name. */
  predicate HasStatus(s: ThreadStatus, name: Bytes)
  {
    || (s == Open && name == "open") || (s == Closed && name == "closed")
    || (s == Spam && name == "spam") || (s == Trash && name == "trash")
  }

  lemma StatusNamed(s: ThreadStatus, name: Bytes)
    ensures StatusText(s) == name <==> HasStatus(s, name)
  {
  }

  /** The thread is one the caller asked for. */
  predicate Meets(row: Thread, id: Id, labels: Labels, org: Id, q: ListQuery)
  {
    && row.org == org && row.inbox == q.inbox
    && (q.status.Some? ==> HasStatus(row.status, q.status.value))
    && (q.isRead.Some? ==> row.isRead == q.isRead.value)
    && (q.isStarred.Some? ==> row.isStarred == q.isStarred.value)
    && (q.labelId.Some? ==> (id, q.labelId.value) in labels)
  }

  /** The thread comes after the position in list order; one without messages comes after none. */
  predicate Follows(row: Thread, id: Id, position: Option<Key>)
  {
    position.Some? ==> row.lastMessageAt.Some? && Beyond(Key(row.lastMessageAt.value, id), position, Descending)
  }

  function Kept(threads: map<Id, Thread>, labels: Labels, org: Id, q: ListQuery, position: Option<Key>): set<Id>
  {
    set id | id in threads && Meets(threads[id], id, labels, org, q) && Follows(threads[id], id, position)
  }

  datatype ThreadPage = ThreadPage(rows: seq<Id>, next: Bytes)

  /** The cursor after a row: its time is written as nothing when it has none. */
  function CursorAfter(row: Thread, id: Id, casts: Casts): Bytes
  {
    Pagination.EncodeCursor([if row.lastMessageAt.Some? then casts.showTime(row.lastMessageAt.value)
                             else [], casts.showId(id)])
  }

  function ListOutcome(threads: map<Id, Thread>, labels: Labels, org: Id, q: ListQuery,
                       casts: Casts): Result<ThreadPage, ListError>
  {
    match Position(q.cursor, casts.Keyed())
    case Failure(e) => Failure(e)
    case Success(position) =>
      var kept := Kept(threads, labels, org, q, position);
      OrderedIsKept(threads, kept);
      Success(Cut(threads, Ordered(threads, kept), Pagination.ClampLimit(q.limit), casts))
  }

  /** At most limit rows, and a cursor when there are more. */
  function Cut(threads: map<Id, Thread>, all: seq<Id>, limit: nat, casts: Casts): ThreadPage
    requires limit > 0 && forall i :: 0 <= i < |all| ==> all[i] in threads
  {
    if |all| > limit then ThreadPage(all[..limit], CursorAfter(threads[all[limit - 1]], all[limit - 1], casts))
    else ThreadPage(all, [])
  }

  method CutRows(threads: map<Id, Thread>, rows: seq<Id>, limit: nat, casts: Casts) returns (page: ThreadPage)
    requires limit > 0 && forall i :: 0 <= i < |rows| ==> rows[i] in threads
    ensures page == Cut(threads, rows, limit, casts)
  {
    var shown := rows;
    var next: Bytes := [];
    if |rows| > limit {
      shown := rows[..limit];
      next := CursorAfter(threads[shown[|shown| - 1]], shown[|shown| - 1], casts);
    }
    page := ThreadPage(shown, next);
  }

  // ---- The compiler ----

  function Given(o: Option<Condition<Arg>>): seq<Condition<Arg>>
  {
    match o
    case Some(c) => [c]
    case None => []
  }

  function StatusCondition(q: ListQuery): Option<Condition<Arg>>
  {
    match q.status
    case Some(s) => Some(Equals(Status, TextArg(s)))
    case None => None
  }

  function FlagCondition(column: Column, o: Option<bool>): Option<Condition<Arg>>
  {
    match o
    case Some(b) => Some(Equals(column, FlagArg(b)))
    case None => None
  }

  function LabelCondition(q: ListQuery): Option<Condition<Arg>>
  {
    match q.labelId
    case Some(l) => Some(HasLabel(IdArg(l)))
    case None => None
  }

  /** The conditions of a query in the order of the text, with their own values. */
  function Filters(org: Id, q: ListQuery): seq<Condition<Arg>>
  {
    [Equals(OrgId, IdArg(org)), Equals(InboxId, IdArg(q.inbox))] + Given(StatusCondition(q))
    + Given(FlagCondition(IsRead, q.isRead)) + Given(FlagCondition(IsStarred, q.isStarred)) + Given(LabelCondition(q))
  }

  /** The where, args and argIdx that List grows; meant is what the text so far stands for. */
  class Builder {
    var where: seq<Condition<int>>
    var args: seq<Arg>
    var argIdx: int
    ghost var meant: seq<Condition<Arg>>

    constructor (org: Id, inbox: Id)
      ensures Valid() && meant == [Equals(OrgId, IdArg(org)), Equals(InboxId, IdArg(inbox))]
    {
      where, args, argIdx := [Equals(OrgId, 1), Equals(InboxId, 2)], [IdArg(org), IdArg(inbox)], 3;
      meant := [Equals(OrgId, IdArg(org)), Equals(InboxId, IdArg(inbox))];
    }

    /** Every placeholder binds its own argument. */
    ghost predicate Valid()
      reads this
    {
      && argIdx == |args| + 1 && |where| == |meant|
      && forall i :: 0 <= i < |where| ==> Bind(where[i], args) == Some(meant[i])
    }

    method AddEquals(column: Column, v: Arg)
      requires Valid()
      modifies this
      ensures Valid() && meant == old(meant) + [Equals(column, v)]
    {
      Extend([v]);
      where := where + [Equals(column, argIdx)];
      argIdx := argIdx + 1;
      meant := meant + [Equals(column, v)];
    }

    method AddLabel(v: Arg)
      requires Valid()
      modifies this
      ensures Valid() && meant == old(meant) + [HasLabel(v)]
    {
      Extend([v]);
      where := where + [HasLabel(argIdx)];
      argIdx := argIdx + 1;
      meant := meant + [HasLabel(v)];
    }

    method AddPosition(at: Arg, id: Arg)
      requires Valid()
      modifies this
      ensures Valid() && meant == old(meant) + [RowBefore(at, id)]
    {
      Extend([at, id]);
      where := where + [RowBefore(argIdx, argIdx + 1)];
      argIdx := argIdx + 2;
      meant := meant + [RowBefore(at, id)];
    }

    /** Appending arguments leaves every earlier binding. */
    method Extend(more: seq<Arg>)
      requires Valid()
      modifies this`args
      ensures args == old(args) + more
      ensures forall i :: 0 <= i < |where| ==> Bind(where[i], args) == Some(meant[i])
    {
      args := args + more;
    }
  }

  /** "if q.Status != nil" */
  method AddStatus(b: Builder, q: ListQuery)
    requires b.Valid()
    modifies b
    ensures b.Valid() && b.meant == old(b.meant) + Given(StatusCondition(q))
  {
    if q.status.Some? {
      b.AddEquals(Status, TextArg(q.status.value));
    }
  }

  /** "if q.IsRead != nil", "if q.IsStarred != nil" */
  method AddFlag(b: Builder, column: Column, flag: Option<bool>)
    requires b.Valid()
    modifies b
    ensures b.Valid() && b.meant == old(b.meant) + Given(FlagCondition(column, flag))
  {
    if flag.Some? {
      b.AddEquals(column, FlagArg(flag.value));
    }
  }

  /** "if q.LabelID != nil" */
  method AddLabel(b: Builder, q: ListQuery)
    requires b.Valid()
    modifies b
    ensures b.Valid() && b.meant == old(b.meant) + Given(LabelCondition(q))
  {
    if q.labelId.Some? {
      b.AddLabel(IdArg(q.labelId.value));
    }
  }

  /** The filters of the query, up to the cursor. */
  method AddFilters(b: Builder, org: Id, q: ListQuery)
    requires b.Valid() && b.meant == [Equals(OrgId, IdArg(org)), Equals(InboxId, IdArg(q.inbox))]
    modifies b
    ensures b.Valid() && b.meant == Filters(org, q)
  {
    AddStatus(b, q);
    AddFlag(b, IsRead, q.isRead);
    AddFlag(b, IsStarred, q.isStarred);
    AddLabel(b, q);
  }

  lemma {:induction false} BoundAll(where: seq<Condition<int>>, args: seq<Arg>, meant: seq<Condition<Arg>>)
    requires |where| == |meant| && forall i :: 0 <= i < |where| ==> Bind(where[i], args) == Some(meant[i])
    ensures BindAll(where, args) == Some(meant)
  {
    if where != [] {
      var n := |where| - 1;
      BoundAll(where[..n], args, meant[..n]);
      assert meant == meant[..n] + [meant[n]];
    }
  }

  ghost predicate HoldAll(cs: seq<Condition<Arg>>, row: Thread, id: Id, labels: Labels, casts: Casts)
  {
    forall c :: c in cs ==> Evaluable(c, casts) && Evaluate(c, row, id, labels, casts) == True
  }

  lemma HoldBoth(a: seq<Condition<Arg>>, b: seq<Condition<Arg>>, row: Thread, id: Id, labels: Labels, casts: Casts)
    ensures HoldAll(a + b, row, id, labels, casts) <==>
            HoldAll(a, row, id, labels, casts) && HoldAll(b, row, id, labels, casts)
  {
    assert forall c :: c in a + b <==> c in a || c in b;
  }

  lemma {:induction false} AllTrue(cs: seq<Condition<Arg>>, row: Thread, id: Id, labels: Labels, casts: Casts)
    requires AllEvaluable(cs, casts)
    ensures EvaluateAll(cs, row, id, labels, casts) == True <==> HoldAll(cs, row, id, labels, casts)
  {
    if cs != [] {
      var n := |cs| - 1;
      AllTrue(cs[..n], row, id, labels, casts);
      HoldBoth(cs[..n], [cs[n]], row, id, labels, casts);
      assert cs == cs[..n] + [cs[n]];
      assert cs[n] in [cs[n]];
    }
  }

  /** The filters are all true of a row exactly when the row meets the query. */
  lemma FiltersMeanMeets(org: Id, q: ListQuery, row: Thread, id: Id, labels: Labels, casts: Casts)
    ensures HoldAll(Filters(org, q), row, id, labels, casts) <==> Meets(row, id, labels, org, q)
  {
    var fixed := [Equals(OrgId, IdArg(org)), Equals(InboxId, IdArg(q.inbox))];
    var status, read := Given(StatusCondition(q)), Given(FlagCondition(IsRead, q.isRead));
    var starred, labelled := Given(FlagCondition(IsStarred, q.isStarred)), Given(LabelCondition(q));
    HoldBoth(fixed, status, row, id, labels, casts);
    HoldBoth(fixed + status, read, row, id, labels, casts);
    HoldBoth(fixed + status + read, starred, row, id, labels, casts);
    HoldBoth(fixed + status + read + starred, labelled, row, id, labels, casts);
    FixedMeans(org, q, row, id, labels, casts);
    if q.status.Some? {
      StatusNamed(row.status, q.status.value);
    }
    GivenMeans(StatusCondition(q), row, id, labels, casts);
    GivenMeans(FlagCondition(IsRead, q.isRead), row, id, labels, casts);
    GivenMeans(FlagCondition(IsStarred, q.isStarred), row, id, labels, casts);
    GivenMeans(LabelCondition(q), row, id, labels, casts);
  }

  lemma FixedMeans(org: Id, q: ListQuery, row: Thread, id: Id, labels: Labels, casts: Casts)
    ensures HoldAll([Equals(OrgId, IdArg(org)), Equals(InboxId, IdArg(q.inbox))], row, id, labels, casts) <==>
            row.org == org && row.inbox == q.inbox
  {
    var fixed := [Equals(OrgId, IdArg(org)), Equals(InboxId, IdArg(q.inbox))];
    assert fixed[0] in fixed && fixed[1] in fixed;
  }

  lemma GivenMeans(o: Option<Condition<Arg>>, row: Thread, id: Id, labels: Labels, casts: Casts)
    ensures HoldAll(Given(o), row, id, labels, casts) <==>
            (o.Some? ==> Evaluable(o.value, casts) && Evaluate(o.value, row, id, labels, casts) == True)
  {
    if o.Some? {
      assert o.value in Given(o);
    }
  }

  lemma FiltersEvaluable(org: Id, q: ListQuery, casts: Casts)
    ensures forall c :: c in Filters(org, q) ==> Evaluable(c, casts)
  {
  }

  // ---- The compiled statement means the query ----

  /** The cursor condition, for the two parts that a cursor decodes to. */
  function PositionCondition(cursor: Bytes): Option<Condition<Arg>>
  {
    match Pagination.DecodeCursor(cursor)
    case Success(parts) => if |parts| < 2 then None else Some(RowBefore(TextArg(parts[0]), TextArg(parts[1])))
    case Failure(_) => None
  }

  predicate BadCursor(cursor: Bytes)
  {
    cursor != [] && (Pagination.DecodeCursor(cursor).Failure? || |Pagination.DecodeCursor(cursor).value| < 2)
  }

  /** Every placeholder binds its own value, and the LIMIT placeholder one more than the page. */
  ghost predicate Binds(s: Statement, org: Id, q: ListQuery)
  {
    && BindAll(s.where, s.args) == Some(Filters(org, q) + Given(PositionCondition(q.cursor)))
    && Bound(s.args, s.limit) == Some(CountArg(Pagination.ClampLimit(q.limit) + 1))
  }

  lemma ConditionsMeanKept(org: Id, q: ListQuery, position: Option<Key>, row: Thread, id: Id, labels: Labels,
                           casts: Casts)
    requires Position(q.cursor, casts.Keyed()) == Success(position)
    ensures
      var cs := Filters(org, q) + Given(PositionCondition(q.cursor));
      && AllEvaluable(cs, casts)
      && (EvaluateAll(cs, row, id, labels, casts) == True <==>
          Meets(row, id, labels, org, q) && Follows(row, id, position))
  {
    var last := PositionCondition(q.cursor);
    FiltersEvaluable(org, q, casts);
    PositionMeansFollows(q.cursor, position, row, id, labels, casts);
    AllTrue(Filters(org, q) + Given(last), row, id, labels, casts);
    HoldBoth(Filters(org, q), Given(last), row, id, labels, casts);
    FiltersMeanMeets(org, q, row, id, labels, casts);
  }

  lemma PositionMeansFollows(cursor: Bytes, position: Option<Key>, row: Thread, id: Id, labels: Labels, casts: Casts)
    requires Position(cursor, casts.Keyed()) == Success(position)
    ensures forall c :: c in Given(PositionCondition(cursor)) ==> Evaluable(c, casts)
    ensures HoldAll(Given(PositionCondition(cursor)), row, id, labels, casts) <==> Follows(row, id, position)
  {
    GivenMeans(PositionCondition(cursor), row, id, labels, casts);
  }

  lemma BadCastFails(org: Id, q: ListQuery, casts: Casts)
    requires !BadCursor(q.cursor) && Position(q.cursor, casts.Keyed()).Failure?
    ensures
      var cs := Filters(org, q) + Given(PositionCondition(q.cursor));
      !AllEvaluable(cs, casts)
  {
    assert PositionCondition(q.cursor).value in Given(PositionCondition(q.cursor));
    assert !Evaluable(PositionCondition(q.cursor).value, casts);
  }

  /** The answer of the database is the wanted threads in list order, one more than a page of them. */
  lemma SelectsKept(s: Statement, org: Id, q: ListQuery, threads: map<Id, Thread>, labels: Labels, casts: Casts)
    requires Binds(s, org, q) && !BadCursor(q.cursor)
    ensures RunSelect(threads, labels, s, casts) ==
            match Position(q.cursor, casts.Keyed())
            case Failure(_) => None
            case Success(position) =>
              var all := Ordered(threads, Kept(threads, labels, org, q, position));
              Some(all[..Min(Pagination.ClampLimit(q.limit) + 1, |all|)])
  {
    match Position(q.cursor, casts.Keyed())
    case Failure(_) => BadCastFails(org, q, casts);
    case Success(position) => MatchingIsKept(org, q, position, threads, labels, casts);
  }

  lemma MatchingIsKept(org: Id, q: ListQuery, position: Option<Key>, threads: map<Id, Thread>, labels: Labels,
                       casts: Casts)
    requires Position(q.cursor, casts.Keyed()) == Success(position)
    ensures
      var cs := Filters(org, q) + Given(PositionCondition(q.cursor));
      AllEvaluable(cs, casts) && Matching(threads, labels, cs, casts) == Kept(threads, labels, org, q, position)
  {
    var cs := Filters(org, q) + Given(PositionCondition(q.cursor));
    ConditionsMeanKept(org, q, position, Thread(org, q.inbox, [], [], Open, true, true, 0, [], None, 0), 0, labels,
                       casts);
    forall id | id in threads
      ensures id in Matching(threads, labels, cs, casts) <==> id in Kept(threads, labels, org, q, position)
    {
      ConditionsMeanKept(org, q, position, threads[id], id, labels, casts);
    }
  }

  /** The part of List before the query is sent. */
  method Compile(org: Id, q: ListQuery) returns (r: Result<Statement, ListError>)
    ensures r.Failure? <==> BadCursor(q.cursor)
    ensures r.Failure? ==> r.error == InvalidCursor
    ensures r.Success? ==> |r.value.args| == r.value.limit && Binds(r.value, org, q)
  {
    var b := new Builder(org, q.inbox);
    AddFilters(b, org, q);
    if q.cursor != [] {
      var decoded := Pagination.DecodeCursor(q.cursor);
      if decoded.Failure? || |decoded.value| < 2 {
        return Failure(InvalidCursor);
      }
      b.AddPosition(TextArg(decoded.value[0]), TextArg(decoded.value[1]));
    }
    assert b.meant == Filters(org, q) + Given(PositionCondition(q.cursor));
    var args := b.args + [CountArg(Pagination.ClampLimit(q.limit) + 1)];
    BoundAll(b.where, args, b.meant);
    r := Success(Statement(b.where, b.argIdx, args));
  }

  /** PostgresThreadStore.List */
  method List(threads: map<Id, Thread>, labels: Labels, org: Id, q: ListQuery, casts: Casts)
    returns (r: Result<ThreadPage, ListError>)
    ensures r == ListOutcome(threads, labels, org, q, casts)
  {
    var statement := Compile(org, q);
    if statement.Failure? {
      return Failure(statement.error);
    }
    var answer := RunSelect(threads, labels, statement.value, casts);
    SelectsKept(statement.value, org, q, threads, labels, casts);
    AnswerCut(answer, org, q, threads, labels, casts);
    if answer.None? {
      return Failure(QueryFailed);
    }
    var rows := Collect(answer.value);
    var page := CutRows(threads, rows, Pagination.ClampLimit(q.limit), casts);
    r := Success(page);
  }

  /** The page cut from the database's answer is the page of all the wanted threads. */
  lemma AnswerCut(answer: Option<seq<Id>>, org: Id, q: ListQuery, threads: map<Id, Thread>, labels: Labels,
                  casts: Casts)
    requires !BadCursor(q.cursor)
    requires answer == match Position(q.cursor, casts.Keyed())
                       case Failure(_) => None
                       case Success(position) =>
                         var all := Ordered(threads, Kept(threads, labels, org, q, position));
                         Some(all[..Min(Pagination.ClampLimit(q.limit) + 1, |all|)])
    ensures answer.None? ==> ListOutcome(threads, labels, org, q, casts) == Failure(QueryFailed)
    ensures answer.Some? ==>
              && (forall i :: 0 <= i < |answer.value| ==> answer.value[i] in threads)
              && ListOutcome(threads, labels, org, q, casts) ==
                  Success(Cut(threads, answer.value, Pagination.ClampLimit(q.limit), casts))
  {
    match Position(q.cursor, casts.Keyed())
    case Failure(_) =>
    case Success(position) =>
      var kept := Kept(threads, labels, org, q, position);
      OrderedIsKept(threads, kept);
      CutPrefix(threads, Ordered(threads, kept), Pagination.ClampLimit(q.limit), casts);
  }

  /** Cutting a page needs no more than one row beyond it. */
  lemma CutPrefix(threads: map<Id, Thread>, all: seq<Id>, limit: nat, casts: Casts)
    requires limit > 0 && forall i :: 0 <= i < |all| ==> all[i] in threads
    ensures Cut(threads, all[..Min(limit + 1, |all|)], limit, casts) == Cut(threads, all, limit, casts)
  {
    var rows := all[..Min(limit + 1, |all|)];
    assert rows[..Min(limit, |rows|)] == all[..Min(limit, |all|)];
  }

  lemma OrderedIsKept(threads: map<Id, Thread>, kept: set<Id>)
    requires kept <= threads.Keys
    ensures forall id :: id in Ordered(threads, kept) <==> id in kept
  {
    forall id
      ensures id in Ordered(threads, kept) <==> id in kept
    {
      ScanIds(Dated(threads, kept), id);
      ScanIds(Undated(threads, kept), id);
      if id in kept {
        assert threads[id].lastMessageAt.Some? ==> Key(threads[id].lastMessageAt.value, id) in Dated(threads, kept);
        assert threads[id].lastMessageAt.None? ==> Key(0, id) in Undated(threads, kept);
      }
    }
  }

  lemma ScanIds(keys: set<Key>, id: Id)
    ensures id in Ids(Scan(keys, Descending)) <==> exists k :: k in keys && k.id == id
  {
    ScanIsSorted(keys, Descending);
    var scan := Scan(keys, Descending);
    if id in Ids(scan) {
      var i :| 0 <= i < |scan| && Ids(scan)[i] == id;
      assert scan[i] in keys;
    }
    if exists k :: k in keys && k.id == id {
      var k :| k in keys && k.id == id;
      var i :| 0 <= i < |scan| && scan[i] == k;
      assert Ids(scan)[i] == id;
    }
  }

  // ---- Pages of threads ----

  lemma TimeRoundTrip(casts: Casts, at: Time)
    requires casts.Faithful()
    ensures casts.readTime(casts.showTime(at)) == Some(at) && '|' !in casts.showTime(at)
  {
  }

  /** A cursor works on the next request exactly when the row it was made from has a last message. */
  lemma CursorAfterWorks(row: Thread, id: Id, casts: Casts)
    requires casts.Faithful()
    ensures Position(CursorAfter(row, id, casts), casts.Keyed()) ==
            match row.lastMessageAt
            case Some(at) => Success(Some(Key(at, id)))
            case None => Failure(QueryFailed)
  {
    var parts: seq<Bytes> := [if row.lastMessageAt.Some? then casts.showTime(row.lastMessageAt.value)
                              else [], casts.showId(id)];
    if row.lastMessageAt.Some? {
      TimeRoundTrip(casts, row.lastMessageAt.value);
    }
    assert casts.readId(casts.showId(id)) == Some(id);
    assert '|' !in parts[0] && '|' !in parts[1];
    assert Pagination.Encodable(parts);
    Pagination.CursorRoundTrip(parts);
    assert CursorAfter(row, id, casts) == Pagination.EncodeCursor(parts);
    assert Pagination.DecodeCursor(CursorAfter(row, id, casts)) == Success(parts);
    assert CursorAfter(row, id, casts) != [];
  }

  ghost predicate AllDated(threads: map<Id, Thread>)
  {
    forall id :: id in threads ==> threads[id].lastMessageAt.Some?
  }

  /** The threads of a query as a keyset list sees them. */
  function LastMessages(threads: map<Id, Thread>, labels: Labels, org: Id, q: ListQuery): Table
  {
    map id | id in threads && Meets(threads[id], id, labels, org, q)
    && threads[id].lastMessageAt.Some? :: threads[id].lastMessageAt.value
  }

  /** The thread of this key is there, and had its last message then. */
  ghost predicate Stands(threads: map<Id, Thread>, k: Key)
  {
    k.id in threads && threads[k.id].lastMessageAt == Some(k.createdAt)
  }

  lemma DatedIff(threads: map<Id, Thread>, kept: set<Id>, k: Key)
    ensures k in Dated(threads, kept) <==> k.id in kept && Stands(threads, k)
  {
    if k.id in kept && Stands(threads, k) {
      assert k == Key(threads[k.id].lastMessageAt.value, k.id);
    }
  }

  lemma SelectedIff(threads: map<Id, Thread>, labels: Labels, org: Id, q: ListQuery, position: Option<Key>, k: Key)
    ensures k in Selected(LastMessages(threads, labels, org, q), position, Descending) <==>
            Stands(threads, k) && Meets(threads[k.id], k.id, labels, org, q) && Beyond(k, position, Descending)
  {
    var table := LastMessages(threads, labels, org, q);
    if k.id in table && table[k.id] == k.createdAt {
      assert k == Key(table[k.id], k.id);
    }
  }

  lemma KeptAreSelected(threads: map<Id, Thread>, labels: Labels, org: Id, q: ListQuery, position: Option<Key>)
    requires AllDated(threads)
    ensures
      var kept := Kept(threads, labels, org, q, position);
      && Dated(threads, kept) == Selected(LastMessages(threads, labels, org, q), position, Descending)
      && Ordered(threads, kept) == Ids(Scan(Dated(threads, kept), Descending))
  {
    var kept := Kept(threads, labels, org, q, position);
    assert Undated(threads, kept) == {};
    forall k
      ensures k in Dated(threads, kept) <==>
              k in Selected(LastMessages(threads, labels, org, q), position, Descending)
    {
      DatedIff(threads, kept, k);
      SelectedIff(threads, labels, org, q, position, k);
    }
  }

  /** While every thread has a last message, a page of threads is a page of the keyset list by (last_message_at, id). */
  lemma ListIsKeysetList(threads: map<Id, Thread>, labels: Labels, org: Id, q: ListQuery, casts: Casts)
    requires AllDated(threads)
    ensures ListOutcome(threads, labels, org, q, casts) ==
            match ListResult(LastMessages(threads, labels, org, q), q.limit, q.cursor, Descending, casts.Keyed())
            case Failure(e) => Failure(e)
            case Success(page) => Success(ThreadPage(Ids(page.rows), page.next))
  {
    match Position(q.cursor, casts.Keyed())
    case Failure(_) =>
    case Success(position) =>
      KeyedPage(threads, labels, org, q, position, Pagination.ClampLimit(q.limit), casts);
  }

  lemma KeyedPage(threads: map<Id, Thread>, labels: Labels, org: Id, q: ListQuery, position: Option<Key>, limit: nat,
                  casts: Casts)
    requires AllDated(threads) && limit > 0
    ensures
      var all := Ordered(threads, Kept(threads, labels, org, q, position));
      var page := PageAfter(LastMessages(threads, labels, org, q), limit, position, Descending, casts.Keyed());
      && (forall i :: 0 <= i < |all| ==> all[i] in threads)
      && Cut(threads, all, limit, casts) == ThreadPage(Ids(page.rows), page.next)
  {
    var kept := Kept(threads, labels, org, q, position);
    KeptAreSelected(threads, labels, org, q, position);
    ScanIsSorted(Dated(threads, kept), Descending);
    CutDated(threads, Scan(Dated(threads, kept), Descending), limit, casts);
  }

  /** Cutting a page of dated threads cuts their keys, and names the last of them. */
  lemma CutDated(threads: map<Id, Thread>, scan: seq<Key>, limit: nat, casts: Casts)
    requires limit > 0
    requires forall k :: k in scan ==> k.id in threads && threads[k.id].lastMessageAt == Some(k.createdAt)
    ensures forall i :: 0 <= i < |scan| ==> Ids(scan)[i] in threads
    ensures Cut(threads, Ids(scan), limit, casts) ==
            if |scan| > limit
                then ThreadPage(Ids(scan[..limit]), Pagination.EncodeCursor(casts.Keyed().show(scan[limit - 1])))
            else ThreadPage(Ids(scan), [])
  {
    forall i | 0 <= i < |scan|
      ensures Ids(scan)[i] in threads
    {
      assert scan[i] in scan;
    }
    if |scan| > limit {
      var last := scan[limit - 1];
      assert last in scan;
      IdsTake(scan, limit);
      assert casts.Keyed().show(last) == [casts.showTime(last.createdAt), casts.showId(last.id)];
    }
  }

  lemma IdsTake(keys: seq<Key>, n: nat)
    requires n <= |keys|
    ensures Ids(keys)[..n] == Ids(keys[..n])
  {
    assert forall i :: 0 <= i < n ==> Ids(keys)[i] == keys[i].id && Ids(keys[..n])[i] == keys[..n][i].id;
  }

  /** What one request meets. */
  datatype Snapshot = Snapshot(threads: map<Id, Thread>, labels: Labels)

  datatype Browsing = Browsing(rows: seq<Id>, pages: nat, finished: bool)

  /** A client that follows next cursors through the threads: the i-th request meets the i-th state. */
  function Browse(states: seq<Snapshot>, org: Id, q: ListQuery, casts: Casts): Browsing
    decreases |states|
  {
    if states == [] then Browsing([], 0, false)
    else
      match ListOutcome(states[0].threads, states[0].labels, org, q, casts)
      case Failure(_) => Browsing([], 1, false)
      case Success(page) =>
        if page.next == [] then Browsing(page.rows, 1, true)
        else
          var rest := Browse(states[1..], org, q.(cursor := page.next), casts);
          Browsing(page.rows + rest.rows, 1 + rest.pages, rest.finished)
  }

  function Lists(states: seq<Snapshot>, org: Id, q: ListQuery): (tables: seq<Table>)
    ensures |tables| == |states|
    ensures forall i :: 0 <= i < |states| ==> tables[i] == LastMessages(states[i].threads, states[i].labels, org, q)
  {
    if states == [] then []
    else [LastMessages(states[0].threads, states[0].labels, org, q)] + Lists(states[1..], org, q)
  }

  lemma IdsConcat(a: seq<Key>, b: seq<Key>)
    ensures Ids(a + b) == Ids(a) + Ids(b)
  {
    assert forall i :: 0 <= i < |a + b| ==> Ids(a + b)[i] == (Ids(a) + Ids(b))[i];
  }

  lemma ListsIgnoreCursor(states: seq<Snapshot>, org: Id, q: ListQuery, cursor: Bytes)
    ensures Lists(states, org, q.(cursor := cursor)) == Lists(states, org, q)
  {
    var q' := q.(cursor := cursor);
    forall i | 0 <= i < |states|
      ensures Lists(states, org, q')[i] == Lists(states, org, q)[i]
    {
      var labels := states[i].labels;
      assert forall id, row :: Meets(row, id, labels, org, q') == Meets(row, id, labels, org, q);
    }
  }

  /** Browsing threads is walking the keyset lists, whatever happens to threads and labels between pages. */
  lemma {:induction false} BrowseIsWalk(states: seq<Snapshot>, org: Id, q: ListQuery, casts: Casts)
    requires forall i :: 0 <= i < |states| ==> AllDated(states[i].threads)
    ensures
      var w := WalkFrom(Lists(states, org, q), q.limit, q.cursor, Descending, casts.Keyed());
      Browse(states, org, q, casts) == Browsing(Ids(w.rows), w.pages, w.finished)
    decreases |states|
  {
    if states != [] {
      ListIsKeysetList(states[0].threads, states[0].labels, org, q, casts);
      var tables := Lists(states, org, q);
      assert tables[0] == LastMessages(states[0].threads, states[0].labels, org, q)
             && tables[1..] == Lists(states[1..], org, q);
      var page := ListResult(tables[0], q.limit, q.cursor, Descending, casts.Keyed());
      if page.Success? && page.value.next != [] {
        BrowseIsWalk(states[1..], org, q.(cursor := page.value.next), casts);
        ListsIgnoreCursor(states[1..], org, q, page.value.next);
        var rest := WalkFrom(tables[1..], q.limit, page.value.next, Descending, casts.Keyed());
        IdsConcat(page.value.rows, rest.rows);
      }
    }
  }

  lemma KeyedIsFaithful(casts: Casts)
    requires casts.Faithful()
    ensures casts.Keyed().Faithful()
  {
    forall k: Key
      ensures var parts := casts.Keyed().show(k);
              |parts| == 2 && casts.Keyed().read(parts[0], parts[1]) == Some(k) && Pagination.Encodable(parts)
    {
      assert casts.Keyed().show(k) == [casts.showTime(k.createdAt), casts.showId(k.id)];
    }
  }

  /** The thread meets the query and had its last message at the given time. */
  ghost predicate Quiet(state: Snapshot, org: Id, q: ListQuery, id: Id, at: Time)
  {
    id in state.threads && Meets(state.threads[id], id, state.labels, org, q)
    && state.threads[id].lastMessageAt == Some(at)
  }

  lemma QuietListed(state: Snapshot, org: Id, q: ListQuery, id: Id, at: Time)
    requires Quiet(state, org, q, id, at)
    ensures Key(at, id) in Keys(LastMessages(state.threads, state.labels, org, q))
  {
    assert id in LastMessages(state.threads, state.labels, org, q);
  }

  /**
    Browsing committed states to the end returns every thread that met the query on each page read with
    the same last message; one that receives a message between pages can move out of reach.
   */
  lemma BrowseFindsQuietThreads(states: seq<Snapshot>, org: Id, q: ListQuery, casts: Casts, id: Id, at: Time)
    requires forall i :: 0 <= i < |states| ==> AllDated(states[i].threads)
    requires casts.Faithful() && q.cursor == [] && Browse(states, org, q, casts).finished
    requires forall i :: 0 <= i < |states| && i < Browse(states, org, q, casts).pages ==>
             Quiet(states[i], org, q, id, at)
    ensures id in Browse(states, org, q, casts).rows
  {
    KeyedIsFaithful(casts);
    BrowseIsWalk(states, org, q, casts);
    var tables := Lists(states, org, q);
    forall i | 0 <= i < |states| && i < Browse(states, org, q, casts).pages
      ensures Key(at, id) in Keys(tables[i])
    {
      QuietListed(states[i], org, q, id, at);
    }
    WalkFinds(tables, q.limit, casts.Keyed(), Key(at, id));
  }

  lemma WalkFinds(tables: seq<Table>, limit: int, codec: Codec, k: Key)
    requires codec.Faithful() && WalkFrom(tables, limit, [], Descending, codec).finished
    requires forall i :: 0 <= i < |tables| && i < WalkFrom(tables, limit, [], Descending, codec).pages ==>
             k in Keys(tables[i])
    ensures k.id in Ids(WalkFrom(tables, limit, [], Descending, codec).rows)
  {
    StableWalk(tables, limit, Descending, codec);
    var rows := WalkFrom(tables, limit, [], Descending, codec).rows;
    assert k in rows;
    var i :| 0 <= i < |rows| && rows[i] == k;
    assert Ids(rows)[i] == k.id;
  }

  /** On unchanging threads, browsing is the sorted list of the threads that meet the query, in as few pages as fit. */
  lemma StillBrowse(states: seq<Snapshot>, state: Snapshot, org: Id, q: ListQuery, casts: Casts)
    requires AllDated(state.threads) && forall i :: 0 <= i < |states| ==> states[i] == state
    requires casts.Faithful() && q.cursor == []
    requires |states| >= PagesFor(|LastMessages(state.threads, state.labels, org, q)|, Pagination.ClampLimit(q.limit))
    ensures Browse(states, org, q, casts) ==
            Browsing(Ordered(state.threads, Kept(state.threads, state.labels, org, q, None)),
                     PagesFor(|LastMessages(state.threads, state.labels, org, q)|, Pagination.ClampLimit(q.limit)),
                     true)
  {
    KeyedIsFaithful(casts);
    BrowseIsWalk(states, org, q, casts);
    var table := LastMessages(state.threads, state.labels, org, q);
    StillWalk(Lists(states, org, q), table, q.limit, Descending, casts.Keyed());
    KeptAreSelected(state.threads, state.labels, org, q, None);
    assert Selected(table, None, Descending) == Keys(table);
  }

  /** In every sound state all threads have a last message, so a cursor that List returns is always accepted. */
  lemma NextCursorAccepted(t: Tables, labels: Labels, org: Id, q: ListQuery, casts: Casts)
    requires TableInvariants.Counted(t) && casts.Faithful() && ListOutcome(t.threads, labels, org, q, casts).Success?
    ensures AllDated(t.threads)
    ensures
      var page := ListOutcome(t.threads, labels, org, q, casts).value;
      page.next != [] ==>
        && page.rows != [] && page.rows[|page.rows| - 1] in t.threads
        && var last := page.rows[|page.rows| - 1];
           Position(page.next, casts.Keyed()) == Success(Some(Key(t.threads[last].lastMessageAt.value, last)))
  {
    var kept := Kept(t.threads, labels, org, q, Position(q.cursor, casts.Keyed()).value);
    OrderedIsKept(t.threads, kept);
    var all, limit := Ordered(t.threads, kept), Pagination.ClampLimit(q.limit);
    if |all| > limit {
      CursorAfterWorks(t.threads[all[limit - 1]], all[limit - 1], casts);
    }
  }
}
