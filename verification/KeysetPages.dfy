/**
  Keyset pagination over (created_at, id), as the message, draft and delivery lists do it:
  ask the database for one row more than the page, cut the page, and make the cursor
  from its last row. The walk of a client over pages of a changing table is a function of the
  tables it meets, one per request.
 */
module KeysetPages {
  import opened Wrappers
  import opened Text
  import Base64
  import Database
  import Pagination

  datatype Key = Key(createdAt: int, id: int)

  datatype Order = Ascending | Descending

  /** The rows that a list's fixed filter keeps at one moment: id to created_at. */
  type Table = map<int, int>

  function Keys(t: Table): set<Key>
  {
    set id | id in t :: Key(t[id], id)
  }

  /** The strict order of ORDER BY created_at, id in the given direction. */
  predicate Before(a: Key, b: Key, o: Order)
  {
    if o == Ascending then a.createdAt < b.createdAt || (a.createdAt == b.createdAt && a.id < b.id)
    else a.createdAt > b.createdAt || (a.createdAt == b.createdAt && a.id > b.id)
  }

  /** The row comparison of the cursor condition. */
  predicate Beyond(k: Key, position: Option<Key>, o: Order)
  {
    position.Some? ==> Before(position.value, k, o)
  }

  function Selected(t: Table, position: Option<Key>, o: Order): set<Key>
  {
    set k | k in Keys(t) && Beyond(k, position, o)
  }

  ghost predicate Sorted(s: seq<Key>, o: Order)
  {
    forall i, j :: 0 <= i < j < |s| ==> Before(s[i], s[j], o)
  }

  predicate IsFirst(m: Key, ks: set<Key>, o: Order)
  {
    m in ks && forall k :: k in ks ==> k == m || Before(m, k, o)
  }

  lemma {:induction false} FirstExists(ks: set<Key>, o: Order)
    requires ks != {}
    ensures exists m :: IsFirst(m, ks, o)
  {
    var x :| x in ks;
    if ks == {x} {
      assert IsFirst(x, ks, o);
    } else {
      FirstExists(ks - {x}, o);
      var m :| IsFirst(m, ks - {x}, o);
      FirstOfTwo(x, m, ks, o);
    }
  }

  lemma FirstOfTwo(x: Key, m: Key, ks: set<Key>, o: Order)
    requires x in ks && IsFirst(m, ks - {x}, o)
    ensures IsFirst(if Before(x, m, o) then x else m, ks, o)
  {
    assert forall k :: k in ks ==> k == x || k in ks - {x};
  }

  function First(ks: set<Key>, o: Order): (m: Key)
    requires ks != {}
    ensures m in ks && forall k :: k in ks ==> k == m || Before(m, k, o)
  {
    FirstExists(ks, o);
    var m :| IsFirst(m, ks, o);
    assert m in ks;
    m
  }

  /** What the database answers without a LIMIT: the selected rows in order. */
  function Scan(ks: set<Key>, o: Order): seq<Key>
  {
    if ks == {} then [] else
      var m := First(ks, o);
      [m] + Scan(ks - {m}, o)
  }

  lemma {:induction false} ScanIsSorted(ks: set<Key>, o: Order)
    ensures Sorted(Scan(ks, o), o)
    ensures |Scan(ks, o)| == |ks|
    ensures forall k :: k in Scan(ks, o) <==> k in ks
  {
    if ks != {} {
      var m := First(ks, o);
      ScanIsSorted(ks - {m}, o);
      assert Scan(ks, o) == [m] + Scan(ks - {m}, o);
    }
  }

  lemma NonemptyHolds(s: seq<Key>)
    ensures s != [] ==> exists k :: k in s
  {
    if s != [] {
      assert s[0] in s;
    }
  }

  lemma {:induction false} SortedUnique(a: seq<Key>, b: seq<Key>, o: Order)
    requires Sorted(a, o) && Sorted(b, o)
    requires forall k :: k in a <==> k in b
    ensures a == b
  {
    if a == [] {
      NonemptyHolds(b);
    } else {
      assert a[0] in b && b != [];
      assert b[0] in a;
      assert a[0] == b[0];
      forall k ensures k in a[1..] <==> k in b[1..] {
        if k in a[1..] {
          assert k in b && k != b[0];
        }
        if k in b[1..] {
          assert k in a && k != a[0];
        }
      }
      SortedUnique(a[1..], b[1..], o);
      assert a == [a[0]] + a[1..] && b == [b[0]] + b[1..];
    }
  }

  /** How a key is written into a cursor and read back by the casts of the query. */
  datatype Codec = Codec(show: Key -> seq<Bytes>, read: (Bytes, Bytes) -> Option<Key>)
  {
    ghost predicate Faithful()
    {
      forall k :: var parts := show(k);
        |parts| == 2 && read(parts[0], parts[1]) == Some(k) && Pagination.Encodable(parts)
    }
  }

  datatype ListError = InvalidCursor | QueryFailed

  datatype Page = Page(rows: seq<Key>, next: Bytes)

  /** The position a cursor stands for, with the two ways a bad cursor fails. */
  function Position(cursor: Bytes, codec: Codec): Result<Option<Key>, ListError>
  {
    if cursor == [] then Success(None)
    else
      match Pagination.DecodeCursor(cursor)
      case Failure(_) => Failure(InvalidCursor)
      case Success(parts) =>
        if |parts| < 2 then Failure(InvalidCursor)
        else match codec.read(parts[0], parts[1])
          case None => Failure(QueryFailed)
          case Some(k) => Success(Some(k))
  }

  function Min(a: nat, b: nat): nat
  {
    if a < b then a else b
  }

  /** The page after a position: at most limit rows, and a cursor only when more follow. */
  function PageAfter(t: Table, limit: nat, position: Option<Key>, o: Order, codec: Codec): Page
    requires limit > 0
  {
    var all := Scan(Selected(t, position, o), o);
    if |all| > limit then Page(all[..limit], Pagination.EncodeCursor(codec.show(all[limit - 1])))
    else Page(all, [])
  }

  function ListResult(t: Table, limit: int, cursor: Bytes, o: Order, codec: Codec): Result<Page, ListError>
  {
    match Position(cursor, codec)
    case Failure(e) => Failure(e)
    case Success(position) => Success(PageAfter(t, Pagination.ClampLimit(limit), position, o, codec))
  }

  method ReadCursor(cursor: Bytes, codec: Codec) returns (r: Result<Option<Key>, ListError>)
    ensures r == Position(cursor, codec)
  {
    if cursor == [] {
      return Success(None);
    }
    var decoded := Pagination.DecodeCursor(cursor);
    if decoded.Failure? || |decoded.value| < 2 {
      return Failure(InvalidCursor);
    }
    var position := codec.read(decoded.value[0], decoded.value[1]);
    r := if position.None? then Failure(QueryFailed) else Success(position);
  }

  /** The List methods of the stores. */
  method List(t: Table, limit: int, cursor: Bytes, o: Order, codec: Codec)
    returns (r: Result<Page, ListError>)
    ensures r == ListResult(t, limit, cursor, o, codec)
  {
    var clamped := Pagination.ClampLimit(limit);
    var position := ReadCursor(cursor, codec);
    if position.Failure? {
      return Failure(position.error);
    }
    var page := CutPage(t, clamped, position.value, o, codec);
    r := Success(page);
  }

  method CutPage(t: Table, limit: nat, position: Option<Key>, o: Order, codec: Codec) returns (page: Page)
    requires limit > 0
    ensures page == PageAfter(t, limit, position, o, codec)
  {
    var all := Scan(Selected(t, position, o), o);
    var rows := Database.Collect(all[..Min(limit + 1, |all|)]);
    var next: Bytes := [];
    if |rows| > limit {
      assert rows[..limit] == all[..limit];
      rows := rows[..limit];
      next := Pagination.EncodeCursor(codec.show(rows[|rows| - 1]));
    }
    page := Page(rows, next);
  }

  datatype Walk = Walk(rows: seq<Key>, pages: nat, finished: bool)

  /** A client that follows next cursors: the i-th request meets the i-th table. */
  function WalkFrom(tables: seq<Table>, limit: int, cursor: Bytes, o: Order, codec: Codec): Walk
    decreases |tables|
  {
    if tables == [] then Walk([], 0, false)
    else
      match ListResult(tables[0], limit, cursor, o, codec)
      case Failure(_) => Walk([], 1, false)
      case Success(page) =>
        if page.next == [] then Walk(page.rows, 1, true)
        else
          var rest := WalkFrom(tables[1..], limit, page.next, o, codec);
          Walk(page.rows + rest.rows, 1 + rest.pages, rest.finished)
  }

  /** The cursor text that stands for a position. */
  ghost predicate Names(cursor: Bytes, position: Option<Key>, codec: Codec)
  {
    match position
    case None => cursor == []
    case Some(k) => cursor == Pagination.EncodeCursor(codec.show(k))
  }

  lemma NamedPosition(cursor: Bytes, position: Option<Key>, codec: Codec)
    requires codec.Faithful() && Names(cursor, position, codec)
    ensures Position(cursor, codec) == Success(position)
    ensures position.Some? ==> cursor != []
  {
    if position.Some? {
      var parts := codec.show(position.value);
      Pagination.CursorRoundTrip(parts);
      assert |parts| == 2;
    }
  }

  /** The rows of a page are the first of the selected rows, and a cursor names its last row. */
  lemma PageCut(t: Table, limit: nat, position: Option<Key>, o: Order, codec: Codec)
    requires limit > 0 && codec.Faithful()
    ensures
      var page := PageAfter(t, limit, position, o, codec);
      var all := Scan(Selected(t, position, o), o);
      && |all| == |Selected(t, position, o)|
      && (page.next == [] <==> |all| <= limit)
      && (page.next == [] ==> page.rows == all)
      && (page.next != [] ==> page.rows == all[..limit] && Names(page.next, Some(all[limit - 1]), codec))
  {
    ScanIsSorted(Selected(t, position, o), o);
    var all := Scan(Selected(t, position, o), o);
    if |all| > limit {
      NamedPosition(Pagination.EncodeCursor(codec.show(all[limit - 1])), Some(all[limit - 1]), codec);
    }
  }

  lemma PageShape(t: Table, limit: nat, position: Option<Key>, o: Order, codec: Codec)
    requires limit > 0 && codec.Faithful()
    ensures
      var page := PageAfter(t, limit, position, o, codec);
      var all := Scan(Selected(t, position, o), o);
      && page.rows <= all && Sorted(all, o)
      && (forall k :: k in all <==> k in Selected(t, position, o))
      && (page.next == [] ==> page.rows == all)
      && (page.next != [] ==> |page.rows| == limit && Names(page.next, Some(page.rows[limit - 1]), codec))
  {
    ScanIsSorted(Selected(t, position, o), o);
    PageCut(t, limit, position, o, codec);
  }

  /** One unfolding of the walk from a named position. */
  lemma WalkStep(tables: seq<Table>, limit: int, cursor: Bytes, position: Option<Key>, o: Order, codec: Codec)
    requires tables != [] && codec.Faithful() && Names(cursor, position, codec)
    ensures
      var page := PageAfter(tables[0], Pagination.ClampLimit(limit), position, o, codec);
      WalkFrom(tables, limit, cursor, o, codec) ==
      if page.next == [] then Walk(page.rows, 1, true)
      else
        var rest := WalkFrom(tables[1..], limit, page.next, o, codec);
        Walk(page.rows + rest.rows, 1 + rest.pages, rest.finished)
  {
    NamedPosition(cursor, position, codec);
  }

  lemma SortedConcat(a: seq<Key>, b: seq<Key>, o: Order)
    requires Sorted(a, o) && Sorted(b, o)
    requires a != [] && forall k :: k in b ==> Before(a[|a| - 1], k, o)
    ensures Sorted(a + b, o)
  {
    var c := a + b;
    forall i, j | 0 <= i < j < |c|
      ensures Before(c[i], c[j], o)
    {
      if i < |a| <= j {
        assert c[j] in b;
        assert i == |a| - 1 || Before(a[i], a[|a| - 1], o);
      }
    }
  }

  /** A walk that is one page, and the rest of the walk if the page has a cursor. */
  ghost predicate Begins(walk: Walk, page: Page, rest: Walk)
  {
    walk == if page.next == [] then Walk(page.rows, 1, true)
            else Walk(page.rows + rest.rows, 1 + rest.pages, rest.finished)
  }

  lemma BegunOrdered(walk: Walk, page: Page, rest: Walk, position: Option<Key>, o: Order)
    requires Begins(walk, page, rest) && OrderedBeyond(page.rows, position, o)
    requires page.next != [] ==> page.rows != [] && OrderedBeyond(rest.rows, Some(page.rows[|page.rows| - 1]), o)
    ensures OrderedBeyond(walk.rows, position, o)
  {
    if page.next != [] {
      JoinedPages(page.rows, rest.rows, position, o);
    }
  }

  lemma {:induction false} WalkOrderedFrom(tables: seq<Table>, limit: int, cursor: Bytes, position: Option<Key>,
                                           o: Order, codec: Codec)
    requires codec.Faithful() && Names(cursor, position, codec)
    ensures OrderedBeyond(WalkFrom(tables, limit, cursor, o, codec).rows, position, o)
    decreases |tables|
  {
    if tables != [] {
      var clamped := Pagination.ClampLimit(limit);
      WalkStep(tables, limit, cursor, position, o, codec);
      PageOrdered(tables[0], clamped, position, o, codec);
      var page := PageAfter(tables[0], clamped, position, o, codec);
      var rest := WalkFrom(tables[1..], limit, page.next, o, codec);
      if page.next != [] {
        WalkOrderedFrom(tables[1..], limit, page.next, Some(page.rows[clamped - 1]), o, codec);
      }
      BegunOrdered(WalkFrom(tables, limit, cursor, o, codec), page, rest, position, o);
    }
  }

  ghost predicate OrderedBeyond(rows: seq<Key>, position: Option<Key>, o: Order)
  {
    Sorted(rows, o) && forall k :: k in rows ==> Beyond(k, position, o)
  }

  lemma JoinedPages(a: seq<Key>, b: seq<Key>, position: Option<Key>, o: Order)
    requires a != [] && OrderedBeyond(a, position, o) && OrderedBeyond(b, Some(a[|a| - 1]), o)
    ensures OrderedBeyond(a + b, position, o)
  {
    SortedConcat(a, b, o);
    BeyondLast(a, b, position, o);
  }

  lemma BeyondLast(a: seq<Key>, b: seq<Key>, position: Option<Key>, o: Order)
    requires a != [] && (forall k :: k in a ==> Beyond(k, position, o))
             && (forall k :: k in b ==> Before(a[|a| - 1], k, o))
    ensures forall k :: k in a + b ==> Beyond(k, position, o)
  {
    assert a[|a| - 1] in a;
  }

  lemma PageOrdered(t: Table, limit: nat, position: Option<Key>, o: Order, codec: Codec)
    requires limit > 0 && codec.Faithful()
    ensures
      var page := PageAfter(t, limit, position, o, codec);
      && OrderedBeyond(page.rows, position, o)
      && (page.next != [] ==> |page.rows| == limit && Names(page.next, Some(page.rows[limit - 1]), codec))
  {
    PageShape(t, limit, position, o, codec);
    var page := PageAfter(t, limit, position, o, codec);
    forall k | k in page.rows
      ensures Beyond(k, position, o)
    {
      assert k in Selected(t, position, o);
    }
  }

  lemma {:induction false} WalkSoundFrom(tables: seq<Table>, limit: int, cursor: Bytes, position: Option<Key>, o: Order,
                                         codec: Codec)
    requires codec.Faithful() && Names(cursor, position, codec)
    ensures
      var w := WalkFrom(tables, limit, cursor, o, codec);
      w.pages <= |tables| && forall k :: k in w.rows ==> exists i :: 0 <= i < w.pages && k in Keys(tables[i])
    decreases |tables|
  {
    if tables != [] {
      var clamped := Pagination.ClampLimit(limit);
      WalkStep(tables, limit, cursor, position, o, codec);
      PageShape(tables[0], clamped, position, o, codec);
      var page := PageAfter(tables[0], clamped, position, o, codec);
      forall k | k in page.rows
        ensures k in Keys(tables[0])
      {
        assert k in Selected(tables[0], position, o);
      }
      if page.next != [] {
        WalkSoundFrom(tables[1..], limit, page.next, Some(page.rows[clamped - 1]), o, codec);
        var rest := WalkFrom(tables[1..], limit, page.next, o, codec);
        forall k | k in rest.rows
          ensures exists i :: 0 <= i < 1 + rest.pages && k in Keys(tables[i])
        {
          var i :| 0 <= i < rest.pages && k in Keys(tables[1..][i]);
          assert tables[i + 1] == tables[1..][i];
        }
      }
    }
  }

  lemma {:induction false} WalkCompleteFrom(tables: seq<Table>, limit: int, cursor: Bytes, position: Option<Key>,
                                            o: Order, codec: Codec, k: Key)
    requires codec.Faithful() && Names(cursor, position, codec)
    requires WalkFrom(tables, limit, cursor, o, codec).finished
    requires forall i :: 0 <= i < WalkFrom(tables, limit, cursor, o, codec).pages && i < |tables| ==>
             k in Keys(tables[i])
    requires Beyond(k, position, o)
    ensures k in WalkFrom(tables, limit, cursor, o, codec).rows
    decreases |tables|
  {
    var clamped := Pagination.ClampLimit(limit);
    WalkStep(tables, limit, cursor, position, o, codec);
    PageShape(tables[0], clamped, position, o, codec);
    var page := PageAfter(tables[0], clamped, position, o, codec);
    var all := Scan(Selected(tables[0], position, o), o);
    assert k in Selected(tables[0], position, o);
    if k !in page.rows {
      var last := page.rows[clamped - 1];
      var j :| 0 <= j < |all| && all[j] == k;
      assert j >= clamped;
      assert Before(all[clamped - 1], all[j], o);
      forall i | 0 <= i < WalkFrom(tables[1..], limit, page.next, o, codec).pages && i < |tables[1..]|
        ensures k in Keys(tables[1..][i])
      {
        assert tables[1..][i] == tables[i + 1];
      }
      WalkCompleteFrom(tables[1..], limit, page.next, Some(last), o, codec, k);
    }
  }

  /**
    A walk from the start, over any tables, returns keys in strict list order, so none twice, each of
    them a row of some table it met; and when it reaches the end it has returned every
    row that was there throughout.
   */
  lemma StableWalk(tables: seq<Table>, limit: int, o: Order, codec: Codec)
    requires codec.Faithful()
    ensures
      var w := WalkFrom(tables, limit, [], o, codec);
      && Sorted(w.rows, o)
      && w.pages <= |tables|
      && (forall i, j :: 0 <= i < j < |w.rows| ==> w.rows[i] != w.rows[j])
      && (forall k :: k in w.rows ==> exists i :: 0 <= i < w.pages && k in Keys(tables[i]))
      && (w.finished ==> forall k :: (forall i :: 0 <= i < w.pages ==> k in Keys(tables[i])) ==> k in w.rows)
  {
    WalkOrderedFrom(tables, limit, [], None, o, codec);
    WalkSoundFrom(tables, limit, [], None, o, codec);
    var w := WalkFrom(tables, limit, [], o, codec);
    if w.finished {
      forall k | forall i :: 0 <= i < w.pages ==> k in Keys(tables[i])
        ensures k in w.rows
      {
        WalkCompleteFrom(tables, limit, [], None, o, codec, k);
      }
    }
  }

  /** What follows the i-th row of a scan is the scan beyond that row. */
  lemma ScanBeyond(t: Table, position: Option<Key>, o: Order, i: nat)
    requires i < |Scan(Selected(t, position, o), o)|
    ensures
      var all := Scan(Selected(t, position, o), o);
      Scan(Selected(t, Some(all[i]), o), o) == all[i + 1..]
  {
    ScanIsSorted(Selected(t, position, o), o);
    var all := Scan(Selected(t, position, o), o);
    var tail := Scan(Selected(t, Some(all[i]), o), o);
    ScanIsSorted(Selected(t, Some(all[i]), o), o);
    assert all[i] in all && Beyond(all[i], position, o);
    forall k ensures k in tail <==> k in all[i + 1..] {
      if k in tail {
        assert k in Selected(t, position, o);
        var j :| 0 <= j < |all| && all[j] == k;
        assert j > i;
        assert all[i + 1..][j - i - 1] == k;
      }
      if k in all[i + 1..] {
        var j :| 0 <= j < |all[i + 1..]| && all[i + 1..][j] == k;
        assert all[i + 1 + j] == k && k in all;
        assert Before(all[i], all[i + 1 + j], o);
      }
    }
    SortedUnique(tail, all[i + 1..], o);
  }

  function PagesFor(n: nat, limit: nat): nat
    requires limit > 0
  {
    if n <= limit then 1 else 1 + PagesFor(n - limit, limit)
  }

  /** The page count is the rounded-up quotient, and one for an empty table. */
  lemma {:induction false} PagesForIsCeiling(n: nat, limit: nat)
    requires limit > 0
    ensures
      var p := PagesFor(n, limit);
      && p >= 1 && n <= p * limit && (n > 0 ==> (p - 1) * limit < n) && (n == 0 ==> p == 1)
  {
    if n > limit {
      PagesForIsCeiling(n - limit, limit);
    }
  }

  /** After a full page the selected rows are those the page left out. */
  lemma StillStep(t: Table, position: Option<Key>, o: Order, limit: nat)
    requires 0 < limit < |Scan(Selected(t, position, o), o)|
    ensures
      var all := Scan(Selected(t, position, o), o);
      var later := Selected(t, Some(all[limit - 1]), o);
      && Scan(later, o) == all[limit..]
      && |later| == |all| - limit
      && |Selected(t, position, o)| == |all|
  {
    ScanBeyond(t, position, o, limit - 1);
    ScanIsSorted(Selected(t, position, o), o);
    ScanIsSorted(Selected(t, Some(Scan(Selected(t, position, o), o)[limit - 1]), o), o);
  }

  lemma {:induction false} StillWalkFrom(tables: seq<Table>, t: Table, limit: int, cursor: Bytes, position: Option<Key>,
                                         o: Order, codec: Codec)
    requires codec.Faithful() && Names(cursor, position, codec)
    requires forall i :: 0 <= i < |tables| ==> tables[i] == t
    requires |tables| >= PagesFor(|Selected(t, position, o)|, Pagination.ClampLimit(limit))
    ensures
      var n := |Selected(t, position, o)|;
      WalkFrom(tables, limit, cursor, o, codec) ==
      Walk(Scan(Selected(t, position, o), o), PagesFor(n, Pagination.ClampLimit(limit)), true)
    decreases |tables|
  {
    var clamped := Pagination.ClampLimit(limit);
    assert tables[0] == t;
    StillPage(t, clamped, position, o, codec);
    var page := PageAfter(t, clamped, position, o, codec);
    if |Selected(t, position, o)| <= clamped {
      WalkStep(tables, limit, cursor, position, o, codec);
    } else {
      var last := page.rows[clamped - 1];
      StillWalkFrom(tables[1..], t, limit, page.next, Some(last), o, codec);
      WalkStep(tables, limit, cursor, position, o, codec);
    }
  }

  /** A page of an unchanged table and what is left after it make up the scan. */
  lemma StillPage(t: Table, limit: nat, position: Option<Key>, o: Order, codec: Codec)
    requires limit > 0 && codec.Faithful()
    ensures
      var page := PageAfter(t, limit, position, o, codec);
      var n, all := |Selected(t, position, o)|, Scan(Selected(t, position, o), o);
      && (n <= limit ==> page == Page(all, []))
      && (n > limit ==>
            && page.next != [] && |page.rows| == limit
            && var later := Selected(t, Some(page.rows[limit - 1]), o);
               Names(page.next, Some(page.rows[limit - 1]), codec) && |later| == n - limit
               && all == page.rows + Scan(later, o))
  {
    PageCut(t, limit, position, o, codec);
    var all := Scan(Selected(t, position, o), o);
    if |all| > limit {
      StillStep(t, position, o, limit);
      assert all == all[..limit] + all[limit..];
    }
  }

  /** On an unchanged table the walk is the single sorted scan, cut into max(1, ceil(n / limit)) pages. */
  lemma StillWalk(tables: seq<Table>, t: Table, limit: int, o: Order, codec: Codec)
    requires codec.Faithful()
    requires forall i :: 0 <= i < |tables| ==> tables[i] == t
    requires |tables| >= PagesFor(|t|, Pagination.ClampLimit(limit))
    ensures WalkFrom(tables, limit, [], o, codec) ==
            Walk(Scan(Keys(t), o), PagesFor(|t|, Pagination.ClampLimit(limit)), true)
  {
    assert Selected(t, None, o) == Keys(t);
    KeysCount(t);
    StillWalkFrom(tables, t, limit, [], None, o, codec);
  }

  lemma {:induction false} KeysCount(t: Table)
    ensures |Keys(t)| == |t|
  {
    if exists id :: id in t {
      var id :| id in t;
      var rest := t - {id};
      KeysCount(rest);
      assert Keys(t) == Keys(rest) + {Key(t[id], id)};
      assert t.Keys == rest.Keys + {id};
    } else {
      assert t == map[];
      assert Keys(t) == {};
    }
  }
}
