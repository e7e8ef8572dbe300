/**
 * The ordering used by the sort endpoint: the accepted keys and directions,
 * and a stable sort of the stored records by one numeric key. As with
 * Python's `sorted(..., reverse=True)`, a descending sort is stable too:
 * records with equal keys keep their original relative order in both
 * directions.
 */
module Sorting {
  import opened Records

  datatype SortKey = ByHeight | ByWeight | ByBmi
  datatype Direction = Asc | Desc

  /** The `sort_by` query parameter: one of height, weight or bmi. */
  function ParseSortKey(s: string): (k: Option<SortKey>)
    ensures k == Some(ByHeight) <==> s == "height"
    ensures k == Some(ByWeight) <==> s == "weight"
    ensures k == Some(ByBmi) <==> s == "bmi"
  {
    if s == "height" then Some(ByHeight)
    else if s == "weight" then Some(ByWeight)
    else if s == "bmi" then Some(ByBmi)
    else None
  }

  /** The `order` query parameter: asc or desc. */
  function ParseDirection(s: string): (d: Option<Direction>)
    ensures d == Some(Asc) <==> s == "asc"
    ensures d == Some(Desc) <==> s == "desc"
  {
    if s == "asc" then Some(Asc)
    else if s == "desc" then Some(Desc)
    else None
  }

  /** The name of a key's entry in a stored record. */
  function KeyName(k: SortKey): (s: string)
    ensures ParseSortKey(s) == Some(k)
  {
    match k
    case ByHeight => "height"
    case ByWeight => "weight"
    case ByBmi => "bmi"
  }

  /**
   * `x.get(name, default)` on the numeric entries of a stored record: the
   * entry called `name`, or `default` when the record has none.
   */
  function Get(r: Record, name: string, default: real): real {
    if name == "age" then r.age as real
    else if name == "height" then r.height
    else if name == "weight" then r.weight
    else if name == "bmi" then r.bmi
    else default
  }

  /** The value a record is sorted on. */
  function KeyOf(r: Record, k: SortKey): real {
    match k
    case ByHeight => r.height
    case ByWeight => r.weight
    case ByBmi => r.bmi
  }

  /**
   * For every accepted `sort_by`, the sort key is the lookup
   * `x.get(sort_by, 0)`, and a stored record always has that entry, so the
   * default is never what the sort compares.
   */
  lemma KeyOfIsLookup(r: Record, sortBy: string)
    requires ParseSortKey(sortBy).Some?
    ensures KeyOf(r, ParseSortKey(sortBy).value) == Get(r, sortBy, 0.0)
    ensures forall default :: Get(r, sortBy, default) == Get(r, sortBy, 0.0)
  {
  }

  /** May a record with key `a` come before one with key `b`? */
  predicate InOrder(a: real, b: real, d: Direction) {
    if d == Asc then a <= b else a >= b
  }

  /** Keys non-decreasing for `Asc`, non-increasing for `Desc`. */
  ghost predicate Sorted(s: seq<Record>, k: SortKey, d: Direction) {
    forall i, j :: 0 <= i < j < |s| ==> InOrder(KeyOf(s[i], k), KeyOf(s[j], k), d)
  }

  /** The records of `s` whose key is `v`, in their order in `s`. */
  function WithKey(s: seq<Record>, k: SortKey, v: real): (t: seq<Record>)
    ensures |t| <= |s|
  {
    if s == [] then []
    else (if KeyOf(s[0], k) == v then [s[0]] else []) + WithKey(s[1..], k, v)
  }

  /**
   * Stability: for every key value, the records with that key appear in the
   * same relative order in `t` as in `s`.
   */
  ghost predicate SameTies(t: seq<Record>, s: seq<Record>, k: SortKey) {
    forall v :: WithKey(t, k, v) == WithKey(s, k, v)
  }

  /** Insert `x` before the first record it may precede. */
  function Insert(x: Record, s: seq<Record>, k: SortKey, d: Direction): (t: seq<Record>)
    ensures multiset(t) == multiset(s) + multiset{x}
  {
    if s == [] then [x]
    else if InOrder(KeyOf(x, k), KeyOf(s[0], k), d) then [x] + s
    else
      assert s == [s[0]] + s[1..];
      [s[0]] + Insert(x, s[1..], k, d)
  }

  /** Every record of `s` may follow `y`, and so may `x`: then every record of the insertion may. */
  lemma {:induction false} PrecedesInsert(y: Record, x: Record, s: seq<Record>, k: SortKey, d: Direction)
    requires InOrder(KeyOf(y, k), KeyOf(x, k), d)
    requires forall m :: 0 <= m < |s| ==> InOrder(KeyOf(y, k), KeyOf(s[m], k), d)
    ensures forall z :: z in Insert(x, s, k, d) ==> InOrder(KeyOf(y, k), KeyOf(z, k), d)
  {
    forall z | z in Insert(x, s, k, d)
      ensures InOrder(KeyOf(y, k), KeyOf(z, k), d)
    {
      assert z in multiset(Insert(x, s, k, d));
      if z != x {
        assert z in multiset(s);
        var m :| 0 <= m < |s| && s[m] == z;
      }
    }
  }

  /** Inserting into a sorted sequence keeps it sorted. */
  lemma {:induction false} InsertSorted(x: Record, s: seq<Record>, k: SortKey, d: Direction)
    requires Sorted(s, k, d)
    ensures Sorted(Insert(x, s, k, d), k, d)
  {
    if s != [] && !InOrder(KeyOf(x, k), KeyOf(s[0], k), d) {
      var rest := Insert(x, s[1..], k, d);
      forall i, j | 0 <= i < j < |s[1..]|
        ensures InOrder(KeyOf(s[1..][i], k), KeyOf(s[1..][j], k), d)
        && InOrder(KeyOf(s[0], k), KeyOf(s[1..][j], k), d)
      {
        assert s[1..][i] == s[i + 1] && s[1..][j] == s[j + 1];
      }
      forall m | 0 <= m < |s[1..]|
        ensures InOrder(KeyOf(s[0], k), KeyOf(s[1..][m], k), d)
      {
        assert s[1..][m] == s[m + 1];
      }
      InsertSorted(x, s[1..], k, d);
      PrecedesInsert(s[0], x, s[1..], k, d);
      var t := [s[0]] + rest;
      assert t == Insert(x, s, k, d);
      forall i, j | 0 <= i < j < |t|
        ensures InOrder(KeyOf(t[i], k), KeyOf(t[j], k), d)
      {
        assert t[j] == rest[j - 1];
        if i > 0 {
          assert t[i] == rest[i - 1];
        }
      }
    }
  }

  /** The sort: a stable insertion sort by `k` in direction `d`. */
  function SortRecords(s: seq<Record>, k: SortKey, d: Direction): (t: seq<Record>)
    ensures multiset(t) == multiset(s)
    ensures Sorted(t, k, d)
  {
    if s == [] then []
    else
      assert s == [s[0]] + s[1..];
      var rest := SortRecords(s[1..], k, d);
      InsertSorted(s[0], rest, k, d);
      Insert(s[0], rest, k, d)
  }

  /** One step of `WithKey`: the first record, then the rest. */
  lemma WithKeyCons(x: Record, s: seq<Record>, k: SortKey, v: real)
    ensures WithKey([x] + s, k, v) == (if KeyOf(x, k) == v then [x] else []) + WithKey(s, k, v)
  {
    assert ([x] + s)[0] == x && ([x] + s)[1..] == s;
  }

  lemma {:induction false} WithKeyAppend(a: seq<Record>, b: seq<Record>, k: SortKey, v: real)
    ensures WithKey(a + b, k, v) == WithKey(a, k, v) + WithKey(b, k, v)
  {
    if a == [] {
      assert a + b == b;
    } else {
      var head: seq<Record> := if KeyOf(a[0], k) == v then [a[0]] else [];
      assert a + b == [a[0]] + (a[1..] + b);
      assert a == [a[0]] + a[1..];
      WithKeyCons(a[0], a[1..] + b, k, v);
      WithKeyCons(a[0], a[1..], k, v);
      WithKeyAppend(a[1..], b, k, v);
      assert head + (WithKey(a[1..], k, v) + WithKey(b, k, v))
          == (head + WithKey(a[1..], k, v)) + WithKey(b, k, v);
    }
  }

  /** `x` is inserted after a first record whose key differs from its own. */
  lemma {:induction false} InsertTiesSkip(x: Record, s: seq<Record>, k: SortKey, d: Direction, v: real)
    requires s != [] && KeyOf(s[0], k) != KeyOf(x, k)
    requires WithKey(Insert(x, s[1..], k, d), k, v)
          == (if KeyOf(x, k) == v then [x] else []) + WithKey(s[1..], k, v)
    ensures WithKey([s[0]] + Insert(x, s[1..], k, d), k, v)
         == (if KeyOf(x, k) == v then [x] else []) + WithKey(s, k, v)
  {
    var rest := Insert(x, s[1..], k, d);
    var first := WithKey([s[0]], k, v);
    var mine: seq<Record> := if KeyOf(x, k) == v then [x] else [];
    var tail := WithKey(s[1..], k, v);
    assert WithKey([s[0]] + rest, k, v) == first + WithKey(rest, k, v) by {
      WithKeyAppend([s[0]], rest, k, v);
    }
    assert WithKey(s, k, v) == first + tail by {
      assert s == [s[0]] + s[1..];
      WithKeyAppend([s[0]], s[1..], k, v);
    }
    assert WithKey(rest, k, v) == mine + tail;
    if mine == [] {
      assert mine + tail == tail && mine + (first + tail) == first + tail;
    } else {
      assert first == [];
      assert first + WithKey(rest, k, v) == WithKey(rest, k, v) && first + tail == tail;
    }
  }

  /** Inserting `x` places it before every record with the same key. */
  lemma {:induction false} InsertTies(x: Record, s: seq<Record>, k: SortKey, d: Direction, v: real)
    ensures WithKey(Insert(x, s, k, d), k, v)
         == (if KeyOf(x, k) == v then [x] else []) + WithKey(s, k, v)
  {
    if s == [] {
    } else if InOrder(KeyOf(x, k), KeyOf(s[0], k), d) {
      WithKeyAppend([x], s, k, v);
    } else {
      assert Insert(x, s, k, d) == [s[0]] + Insert(x, s[1..], k, d);
      InsertTies(x, s[1..], k, d, v);
      // s[0] may not precede x, so their keys differ.
      assert KeyOf(s[0], k) != KeyOf(x, k);
      InsertTiesSkip(x, s, k, d, v);
    }
  }

  /** The sort is stable. */
  lemma {:induction false} SortStable(s: seq<Record>, k: SortKey, d: Direction)
    ensures SameTies(SortRecords(s, k, d), s, k)
  {
    if s != [] {
      SortStable(s[1..], k, d);
      forall v
        ensures WithKey(SortRecords(s, k, d), k, v) == WithKey(s, k, v)
      {
        InsertTies(s[0], SortRecords(s[1..], k, d), k, d, v);
      }
    }
  }

  lemma {:induction false} WithKeyFinds(s: seq<Record>, k: SortKey, i: int)
    requires 0 <= i < |s|
    ensures WithKey(s, k, KeyOf(s[i], k)) != []
  {
    if i > 0 {
      WithKeyFinds(s[1..], k, i - 1);
    }
  }

  /** Each record `WithKey` keeps occurs in its input and has the key asked for. */
  lemma {:induction false} WithKeyMember(s: seq<Record>, k: SortKey, v: real, r: Record)
    requires r in WithKey(s, k, v)
    ensures r in s && KeyOf(r, k) == v
  {
    if KeyOf(s[0], k) == v && r == s[0] {
    } else {
      WithKeyMember(s[1..], k, v, r);
    }
  }

  lemma {:induction false} WithKeyHead(s: seq<Record>, k: SortKey)
    requires s != []
    ensures WithKey(s, k, KeyOf(s[0], k)) == [s[0]] + WithKey(s[1..], k, KeyOf(s[0], k))
    ensures forall v :: v != KeyOf(s[0], k) ==> WithKey(s, k, v) == WithKey(s[1..], k, v)
  {
  }

  /** In a sorted sequence the first record may precede every key the sequence holds. */
  lemma {:induction false} FirstPrecedes(t: seq<Record>, k: SortKey, d: Direction, v: real)
    requires Sorted(t, k, d)
    requires WithKey(t, k, v) != []
    ensures t != [] && InOrder(KeyOf(t[0], k), v, d)
  {
    var x := WithKey(t, k, v)[0];
    WithKeyMember(t, k, v, x);
    var i :| 0 <= i < |t| && t[i] == x;
    if i > 0 {
      assert InOrder(KeyOf(t[0], k), KeyOf(t[i], k), d);
    }
  }

  /** Sorted sequences with the same ties start with the same record. */
  lemma {:induction false} SameHead(t: seq<Record>, u: seq<Record>, k: SortKey, d: Direction)
    requires Sorted(t, k, d) && Sorted(u, k, d)
    requires SameTies(t, u, k)
    requires t != [] && u != []
    ensures t[0] == u[0]
  {
    var a, b := KeyOf(t[0], k), KeyOf(u[0], k);
    WithKeyFinds(u, k, 0);
    assert WithKey(t, k, b) == WithKey(u, k, b);
    FirstPrecedes(t, k, d, b);
    WithKeyFinds(t, k, 0);
    assert WithKey(u, k, a) == WithKey(t, k, a);
    FirstPrecedes(u, k, d, a);
    assert a == b;
    WithKeyHead(t, k);
    WithKeyHead(u, k);
    assert WithKey(t, k, a) == WithKey(u, k, a);
    assert WithKey(t, k, a)[0] == t[0] && WithKey(u, k, a)[0] == u[0];
  }

  /** Dropping an equal first record from both keeps the ties equal. */
  lemma {:induction false} SameTiesTail(t: seq<Record>, u: seq<Record>, k: SortKey)
    requires SameTies(t, u, k)
    requires t != [] && u != [] && t[0] == u[0]
    ensures SameTies(t[1..], u[1..], k)
  {
    WithKeyHead(t, k);
    WithKeyHead(u, k);
    forall v
      ensures WithKey(t[1..], k, v) == WithKey(u[1..], k, v)
    {
      assert WithKey(t, k, v) == WithKey(u, k, v);
      if v == KeyOf(t[0], k) {
        assert WithKey(t[1..], k, v) == WithKey(t, k, v)[1..];
        assert WithKey(u[1..], k, v) == WithKey(u, k, v)[1..];
      }
    }
  }

  lemma SortedTail(t: seq<Record>, k: SortKey, d: Direction)
    requires Sorted(t, k, d) && t != []
    ensures Sorted(t[1..], k, d)
  {
    forall i, j | 0 <= i < j < |t| - 1
      ensures InOrder(KeyOf(t[1..][i], k), KeyOf(t[1..][j], k), d)
    {
      assert t[1..][i] == t[i + 1] && t[1..][j] == t[j + 1];
    }
  }

  /**
   * Uniqueness: two sorted sequences with the same ties for every key value
   * are equal, so permutation, order and stability determine the result.
   */
  lemma {:induction false} SortedTiesUnique(t: seq<Record>, u: seq<Record>, k: SortKey, d: Direction)
    requires Sorted(t, k, d) && Sorted(u, k, d)
    requires SameTies(t, u, k)
    ensures t == u
    decreases |t| + |u|
  {
    if t == [] || u == [] {
      if t != [] {
        WithKeyFinds(t, k, 0);
      } else if u != [] {
        WithKeyFinds(u, k, 0);
      }
    } else {
      SameHead(t, u, k, d);
      SameTiesTail(t, u, k);
      SortedTail(t, k, d);
      SortedTail(u, k, d);
      SortedTiesUnique(t[1..], u[1..], k, d);
      assert t == [t[0]] + t[1..] && u == [u[0]] + u[1..];
    }
  }

  /**
   * The sort is the only sorted, stable arrangement of its input: any
   * ordering with those two properties is the one `SortRecords` returns.
   */
  lemma SortCharacterised(s: seq<Record>, t: seq<Record>, k: SortKey, d: Direction)
    requires Sorted(t, k, d) && SameTies(t, s, k)
    ensures t == SortRecords(s, k, d)
  {
    SortStable(s, k, d);
    SortedTiesUnique(t, SortRecords(s, k, d), k, d);
  }
}
