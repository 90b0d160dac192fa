/** Cursor strings and page limits (pkg/pagination). */
module Pagination {
  import opened Wrappers
  import opened Text
  import Base64

  const DEFAULT_LIMIT := 20
  const MAX_LIMIT := 100

  function EncodeCursor(parts: seq<Bytes>): Bytes
  {
    Base64.Encode(Join(parts, ['|']))
  }

  function DecodeCursor(cursor: Bytes): Result<seq<Bytes>, Base64.Corrupt>
  {
    if cursor == [] then Success([])
    else
      match Base64.Decode(cursor)
      case Failure(e) => Failure(e)
      case Success(raw) => Success(Split(raw, '|'))
  }

  function ClampLimit(limit: int): (r: nat)
    ensures 1 <= r <= 100
    ensures 1 <= limit <= 100 ==> r == limit
    ensures limit <= 0 ==> r == 20
    ensures limit > 100 ==> r == 100
  {
    if limit <= 0 then DEFAULT_LIMIT else if limit > MAX_LIMIT then MAX_LIMIT else limit
  }

  /** The parts for which the cursor text keeps every boundary between them. */
  predicate Encodable(parts: seq<Bytes>)
  {
    parts != [[]] && forall p :: p in parts ==> '|' !in p
  }

  /** A cursor decodes to the parts it was made from exactly when the parts are encodable. */
  lemma CursorRoundTrip(parts: seq<Bytes>)
    ensures DecodeCursor(EncodeCursor(parts)) == Success(parts) <==> Encodable(parts)
  {
    var raw := Join(parts, ['|']);
    Base64.DecodeEncode(raw);
    Base64.EncodeIsPlain(raw);
    if raw == [] {
      EmptyJoin(parts);
    } else {
      assert DecodeCursor(EncodeCursor(parts)) == Success(Split(raw, '|'));
      if Encodable(parts) {
        SplitJoin(parts, '|');
      }
      SplitPartsHoldNoSeparator(raw, '|');
    }
  }

  lemma EmptyJoin(parts: seq<Bytes>)
    requires Join(parts, ['|']) == []
    ensures parts == [] || parts == [[]]
  {
    if |parts| == 1 {
      assert parts == [parts[0]];
    }
  }

  /** Two encodable cursors are equal only if their parts are: no two positions share a cursor. */
  lemma CursorInjective(a: seq<Bytes>, b: seq<Bytes>)
    requires Encodable(a) && Encodable(b)
    requires EncodeCursor(a) == EncodeCursor(b)
    ensures a == b
  {
    CursorRoundTrip(a);
    CursorRoundTrip(b);
  }
}
