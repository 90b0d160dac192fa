/**
  The seen-map loops: thread participants (Send, Approve, inbound ingest) and the recipients of a
  reply-all. Each keeps the first address of every key, in order.
 */
module Recipients {
  import opened Text
  import opened Database

  /** Addresses are told apart by a key of their email, such as the email itself or its lower case. */
  type KeyOf = Bytes -> Bytes

  function Exactly(email: Bytes): Bytes
  {
    email
  }

  ghost predicate IsFirst(addrs: seq<Address>, i: nat, key: KeyOf, excluded: set<Bytes>)
    requires i < |addrs|
  {
    && addrs[i].email != []
    && key(addrs[i].email) !in excluded
    && forall j :: 0 <= j < i && addrs[j].email != [] ==> key(addrs[j].email) != key(addrs[i].email)
  }

  /** The first occurrences among the first n addresses, in order. */
  ghost function FirstOccurrences(addrs: seq<Address>, n: nat, key: KeyOf, excluded: set<Bytes>): seq<Address>
    requires n <= |addrs|
  {
    if n == 0 then []
    else
      FirstOccurrences(addrs, n - 1, key, excluded)
      + if IsFirst(addrs, n - 1, key, excluded) then [addrs[n - 1]] else []
  }

  /** Who a new thread says takes part: the first of each email. */
  ghost function Participants(addrs: seq<Address>): seq<Address>
  {
    FirstOccurrences(addrs, |addrs|, Exactly, {})
  }

  function KeysOf(addrs: seq<Address>, n: nat, key: KeyOf): set<Bytes>
    requires n <= |addrs|
  {
    set j | 0 <= j < n && addrs[j].email != [] :: key(addrs[j].email)
  }

  /** The loop with its seen map. */
  method Distinct(addrs: seq<Address>, key: KeyOf, excluded: set<Bytes>) returns (kept: seq<Address>)
    ensures kept == FirstOccurrences(addrs, |addrs|, key, excluded)
  {
    var seen := excluded;
    kept := [];
    for i := 0 to |addrs|
      invariant seen == excluded + KeysOf(addrs, i, key)
      invariant kept == FirstOccurrences(addrs, i, key, excluded)
    {
      var addr := addrs[i];
      assert KeysOf(addrs, i + 1, key) == KeysOf(addrs, i, key) + if addr.email != [] then {key(addr.email)} else {};
      assert IsFirst(addrs, i, key, excluded) <==> addr.email != [] && key(addr.email) !in seen;
      if addr.email != [] && key(addr.email) !in seen {
        seen := seen + {key(addr.email)};
        kept := kept + [addr];
      }
    }
  }

  /** The positions that are kept. */
  ghost function Positions(addrs: seq<Address>, n: nat, key: KeyOf, excluded: set<Bytes>): seq<nat>
    requires n <= |addrs|
  {
    if n == 0 then []
    else
      Positions(addrs, n - 1, key, excluded)
      + if IsFirst(addrs, n - 1, key, excluded) then [n - 1] else []
  }

  /** Every kept address is a first occurrence, and earlier in the list means earlier in the input. */
  lemma {:induction false} KeptInOrder(addrs: seq<Address>, n: nat, key: KeyOf, excluded: set<Bytes>)
    requires n <= |addrs|
    ensures
      var kept := FirstOccurrences(addrs, n, key, excluded);
      var from := Positions(addrs, n, key, excluded);
      && |from| == |kept|
      && (forall i :: 0 <= i < |from| ==>
          from[i] < n && kept[i] == addrs[from[i]] && IsFirst(addrs, from[i], key, excluded))
      && (forall i, j :: 0 <= i < j < |from| ==> from[i] < from[j])
  {
    if n > 0 {
      KeptInOrder(addrs, n - 1, key, excluded);
    }
  }

  lemma {:induction false} FirstIsKept(addrs: seq<Address>, n: nat, key: KeyOf, excluded: set<Bytes>, m: nat)
    requires m < n <= |addrs| && IsFirst(addrs, m, key, excluded)
    ensures addrs[m] in FirstOccurrences(addrs, n, key, excluded)
  {
    if m < n - 1 {
      FirstIsKept(addrs, n - 1, key, excluded, m);
    }
  }

  /** Every address that may be kept has a first occurrence of its key. */
  lemma {:induction false} FirstOfKey(addrs: seq<Address>, j: nat, key: KeyOf, excluded: set<Bytes>) returns (m: nat)
    requires j < |addrs| && addrs[j].email != [] && key(addrs[j].email) !in excluded
    ensures m <= j && IsFirst(addrs, m, key, excluded) && key(addrs[m].email) == key(addrs[j].email)
    decreases j
  {
    if IsFirst(addrs, j, key, excluded) {
      m := j;
    } else {
      var i :| 0 <= i < j && addrs[i].email != [] && key(addrs[i].email) == key(addrs[j].email);
      m := FirstOfKey(addrs, i, key, excluded);
    }
  }

  /**
    The kept list holds addresses of the input that are not excluded, no key twice, and covers
    every other non-empty address.
   */
  lemma KeptOnce(addrs: seq<Address>, key: KeyOf, excluded: set<Bytes>)
    ensures
      var kept := FirstOccurrences(addrs, |addrs|, key, excluded);
      && (forall a :: a in kept ==> a in addrs && a.email != [] && key(a.email) !in excluded)
      && (forall i, j :: 0 <= i < j < |kept| ==> key(kept[i].email) != key(kept[j].email))
      && (forall a :: a in addrs && a.email != [] && key(a.email) !in excluded ==>
            exists b :: b in kept && key(b.email) == key(a.email))
  {
    var kept := FirstOccurrences(addrs, |addrs|, key, excluded);
    var from := Positions(addrs, |addrs|, key, excluded);
    KeptInOrder(addrs, |addrs|, key, excluded);
    forall a | a in addrs && a.email != [] && key(a.email) !in excluded
      ensures exists b :: b in kept && key(b.email) == key(a.email)
    {
      var j :| 0 <= j < |addrs| && addrs[j] == a;
      var m := FirstOfKey(addrs, j, key, excluded);
      FirstIsKept(addrs, |addrs|, key, excluded, m);
    }
    forall i, j | 0 <= i < j < |kept|
      ensures key(kept[i].email) != key(kept[j].email)
    {
      assert from[i] < from[j] && IsFirst(addrs, from[j], key, excluded);
      assert addrs[from[i]].email != [];
    }
  }
}
