/**
 The CLI message history (cli/src/history.rs): messages live in a sled tree under
 the key "<timestamp as 20 digits>_<id>", and queries walk the tree backwards.
 */
module CliHistory {
  import opened Sequences
  import opened SledTree
  import opened Text
  import Lex

  const U64_LIMIT: nat := 0x1_0000_0000_0000_0000

  datatype Direction = Sent | Received

  datatype MessageRecord = MessageRecord(
    id: string,
    fromPeer: string,
    toPeer: string,
    content: string,
    timestamp: nat,
    direction: Direction,
    delivered: bool)
  {
    function Peer(): string {
      if direction == Sent then toPeer else fromPeer
    }
  }

  // ------------------------------------------------------------ key format

  function Digit(d: nat): char
    requires d < 10
  {
    ['0', '1', '2', '3', '4', '5', '6', '7', '8', '9'][d]
  }

  function Pow10(w: nat): nat {
    if w == 0 then 1 else 10 * Pow10(w - 1)
  }

  /** The `w` low decimal digits of `n`, most significant first. */
  function Digits(n: nat, w: nat): (s: string)
    ensures |s| == w
  {
    if w == 0 then [] else Digits(n / 10, w - 1) + [Digit(n % 10)]
  }

  function Key(timestamp: nat, id: string): string {
    Digits(timestamp, 20) + "_" + id
  }

  lemma DigitOrder(a: nat, b: nat)
    requires a < 10 && b < 10
    ensures Digit(a) < Digit(b) <==> a < b
    ensures Digit(a) == Digit(b) <==> a == b
  {
  }

  lemma {:induction false} DigitsInjective(a: nat, b: nat, w: nat)
    requires a < Pow10(w) && b < Pow10(w) && Digits(a, w) == Digits(b, w)
    ensures a == b
  {
    if w > 0 {
      var s, t := Digits(a, w), Digits(b, w);
      assert s[..w - 1] == Digits(a / 10, w - 1) && t[..w - 1] == Digits(b / 10, w - 1);
      assert s[w - 1] == Digit(a % 10) && t[w - 1] == Digit(b % 10);
      DigitOrder(a % 10, b % 10);
      DigitsInjective(a / 10, b / 10, w - 1);
    }
  }

  /** Zero padding makes the byte order of decimal numerals numeric. */
  lemma {:induction false} DigitsOrder(a: nat, b: nat, w: nat)
    requires a < Pow10(w) && b < Pow10(w)
    ensures Lex.Less(Digits(a, w), Digits(b, w)) <==> a < b
  {
    if w > 0 {
      var x, y := Digits(a / 10, w - 1), Digits(b / 10, w - 1);
      if a / 10 == b / 10 {
        Lex.CommonPrefix(x, [Digit(a % 10)], [Digit(b % 10)]);
        DigitOrder(a % 10, b % 10);
      } else {
        if x == y {
          DigitsInjective(a / 10, b / 10, w - 1);
        }
        Lex.DistinctHeads(x, y, [Digit(a % 10)], [Digit(b % 10)]);
        DigitsOrder(a / 10, b / 10, w - 1);
      }
    }
  }

  lemma U64FitsTwentyDigits()
    ensures U64_LIMIT < Pow10(20)
  {
    assert Pow10(5) == 100_000;
    assert Pow10(10) == 100_000 * Pow10(5);
    assert Pow10(15) == 100_000 * Pow10(10);
    assert Pow10(20) == 100_000 * Pow10(15);
  }

  /** The stored key orders messages by timestamp, then by id, for every u64 timestamp. */
  lemma KeyOrder(t1: nat, id1: string, t2: nat, id2: string)
    requires t1 < U64_LIMIT && t2 < U64_LIMIT
    ensures Lex.Less(Key(t1, id1), Key(t2, id2)) <==> t1 < t2 || (t1 == t2 && Lex.Less(id1, id2))
  {
    U64FitsTwentyDigits();
    var x, y := Digits(t1, 20), Digits(t2, 20);
    assert Key(t1, id1) == x + ("_" + id1) && Key(t2, id2) == y + ("_" + id2);
    DigitsOrder(t1, t2, 20);
    if x == y {
      DigitsInjective(t1, t2, 20);
      Lex.CommonPrefix(x, "_" + id1, "_" + id2);
      Lex.CommonPrefix("_", id1, id2);
    } else {
      Lex.DistinctHeads(x, y, "_" + id1, "_" + id2);
    }
  }

  /** Distinct (timestamp, id) pairs never share a key. */
  lemma KeyInjective(t1: nat, id1: string, t2: nat, id2: string)
    requires t1 < U64_LIMIT && t2 < U64_LIMIT && Key(t1, id1) == Key(t2, id2)
    ensures t1 == t2 && id1 == id2
  {
    U64FitsTwentyDigits();
    var k := Key(t1, id1);
    assert k[..20] == Digits(t1, 20) == Digits(t2, 20);
    DigitsInjective(t1, t2, 20);
    assert k[21..] == id1 && k[21..] == id2;
  }

  // ------------------------------------------------------------- the store

  function KeyOf(r: MessageRecord): string {
    Key(r.timestamp, r.id)
  }

  ghost predicate WellKeyed(t: Tree<MessageRecord>) {
    && Ascending(t)
    && forall i :: 0 <= i < |t| ==> t[i].value.timestamp < U64_LIMIT && t[i].key == KeyOf(t[i].value)
  }

  /** Newest first; ids break ties, larger first. */
  predicate NewestFirst(a: MessageRecord, b: MessageRecord) {
    a.timestamp > b.timestamp || (a.timestamp == b.timestamp && Lex.AtMost(b.id, a.id))
  }

  /** What a caller means by "the n newest matching messages", whatever order they are held in. */
  function NewestMatching(keep: MessageRecord -> bool, all: seq<MessageRecord>, n: nat): seq<MessageRecord> {
    Take(Sort(NewestFirst, Filter(keep, all)), n)
  }

  lemma NewestFirstIsRanking()
    ensures Ranking(NewestFirst)
  {
    forall x: MessageRecord, y: MessageRecord
      ensures NewestFirst(x, y) || NewestFirst(y, x)
    {
      Lex.Trichotomy(x.id, y.id);
    }
    forall x: MessageRecord, y: MessageRecord, z: MessageRecord | NewestFirst(x, y) && NewestFirst(y, z)
      ensures NewestFirst(x, z)
    {
      if x.timestamp == z.timestamp && x.id != y.id && y.id != z.id {
        Lex.Transitive(z.id, y.id, x.id);
      }
    }
  }

  /** `a` was stored with a later time, or with the same time under a larger id. */
  ghost predicate LaterThan(a: MessageRecord, b: MessageRecord) {
    a.timestamp > b.timestamp || (a.timestamp == b.timestamp && Lex.Less(b.id, a.id))
  }

  /** Backwards, later records come first. */
  lemma BackwardsIsLater(t: Tree<MessageRecord>, i: nat, j: nat)
    requires WellKeyed(t) && i < j < |t|
    ensures |Reverse(Values(t))| == |t| && LaterThan(Reverse(Values(t))[i], Reverse(Values(t))[j])
  {
    hide Reverse, Key, Lex.Less;
    var v, n := Values(t), |t|;
    ReverseIndex(v, i);
    ReverseIndex(v, j);
    var a, b := t[n - 1 - j].value, t[n - 1 - i].value;
    KeyOrder(a.timestamp, a.id, b.timestamp, b.id);
  }

  lemma LaterIsNewestFirst(a: MessageRecord, b: MessageRecord)
    requires LaterThan(a, b)
    ensures NewestFirst(a, b) && !NewestFirst(b, a)
  {
    if a.timestamp == b.timestamp {
      Lex.Asymmetric(b.id, a.id);
    }
  }

  lemma ReversedIsNewestFirst(t: Tree<MessageRecord>)
    requires WellKeyed(t)
    ensures SortedBy(NewestFirst, Reverse(Values(t)))
    ensures NoTies(NewestFirst, Reverse(Values(t)))
  {
    hide Reverse, Values, WellKeyed, NewestFirst, LaterThan;
    var r := Reverse(Values(t));
    ReverseMultiset(Values(t));
    BackwardsLength(t);
    forall i, j | 0 <= i < j < |r|
      ensures NewestFirst(r[i], r[j]) && !NewestFirst(r[j], r[i])
    {
      BackwardsIsLater(t, i, j);
      LaterIsNewestFirst(r[i], r[j]);
    }
  }

  lemma BackwardsLength(t: Tree<MessageRecord>)
    ensures |Reverse(Values(t))| == |t|
  {
    if t != [] {
      ReverseIndex(Values(t), 0);
    }
  }

  /** Walking the tree backwards lists matching messages exactly as sorting them newest first would. */
  lemma ReverseScanIsSort(t: Tree<MessageRecord>, keep: MessageRecord -> bool)
    requires WellKeyed(t)
    ensures Filter(keep, Reverse(Values(t))) == Sort(NewestFirst, Filter(keep, Values(t)))
  {
    var r := Reverse(Values(t));
    NewestFirstIsRanking();
    ReversedIsNewestFirst(t);
    ReverseMultiset(Values(t));
    var f, g := Filter(keep, r), Filter(keep, Values(t));
    FilterIsSorted(NewestFirst, keep, r);
    FilterPermutation(keep, r, Values(t));
    forall x | x in f
      ensures x in r
    {
      FilterMember(keep, r, x);
    }
    NoTiesTransfer(NewestFirst, r, f);
    SortMultiset(NewestFirst, g);
    SortIsSorted(NewestFirst, g);
    SortedUnique(NewestFirst, f, Sort(NewestFirst, g));
  }

  /** `q` answers a query: stored records that are asked for, latest first, leaving out only earlier ones. */
  ghost predicate Answers(t: Tree<MessageRecord>, asked: MessageRecord -> bool, n: nat, q: seq<MessageRecord>) {
    && |q| <= n
    && (forall i, j :: 0 <= i < j < |q| ==> LaterThan(q[i], q[j]))
    && (forall m :: m in q ==> asked(m) && m in Values(t))
    && (forall m :: m in Values(t) && asked(m) && m !in q ==> |q| == n && forall x :: x in q ==> LaterThan(x, m))
  }

  lemma ReversedIsLatestFirst(t: Tree<MessageRecord>, keep: MessageRecord -> bool)
    requires WellKeyed(t)
    ensures SortedBy((a, b) => LaterThan(a, b), Filter(keep, Reverse(Values(t))))
  {
    hide Reverse, Values, WellKeyed, LaterThan, Filter;
    var r := Reverse(Values(t));
    BackwardsLength(t);
    forall i, j | 0 <= i < j < |r|
      ensures LaterThan(r[i], r[j])
    {
      BackwardsIsLater(t, i, j);
    }
    FilterIsSorted((a, b) => LaterThan(a, b), keep, r);
  }

  /** The newest matching messages are what a caller is promised. */
  lemma NewestAnswers(t: Tree<MessageRecord>, keep: MessageRecord -> bool, n: nat)
    requires WellKeyed(t)
    ensures Answers(t, keep, n, NewestMatching(keep, Values(t), n))
  {
    hide Sort, Filter, Reverse, LaterThan, WellKeyed, Values;
    var s, q := Filter(keep, Reverse(Values(t))), NewestMatching(keep, Values(t), n);
    ReverseScanIsSort(t, keep);
    ReversedIsLatestFirst(t, keep);
    ReverseMultiset(Values(t));
    forall m
      ensures m in s <==> m in Values(t) && keep(m)
    {
      FilterMember(keep, Reverse(Values(t)), m);
      SameMember(Reverse(Values(t)), Values(t), m);
    }
    forall m | m in Values(t) && keep(m) && m !in q
      ensures |q| == n && forall x :: x in q ==> LaterThan(x, m)
    {
      var j :| 0 <= j < |s| && s[j] == m;
      assert j >= |q|;
      forall x | x in q
        ensures LaterThan(x, m)
      {
        var i :| 0 <= i < |q| && q[i] == x;
        assert s[i] == x;
      }
    }
  }

  lemma SameQuestion(
    t: Tree<MessageRecord>, a: MessageRecord -> bool, b: MessageRecord -> bool, n: nat, q: seq<MessageRecord>)
    requires Answers(t, a, n, q) && forall m :: a(m) == b(m)
    ensures Answers(t, b, n, q)
  {
  }

  lemma ScanStep(t: Tree<MessageRecord>, i: nat, keep: MessageRecord -> bool)
    requires i < |t|
    ensures Filter(keep, Reverse(Values(t[i..]))) ==
            Filter(keep, Reverse(Values(t[i + 1..]))) + (if keep(t[i].value) then [t[i].value] else [])
  {
    assert t[i..] == [t[i]] + t[i + 1..];
    assert Values(t[i..]) == [t[i].value] + Values(t[i + 1..]);
    FilterAppend(keep, Reverse(Values(t[i + 1..])), t[i].value);
  }

  lemma ScanPrefix(t: Tree<MessageRecord>, i: nat, keep: MessageRecord -> bool)
    requires i <= |t|
    ensures Filter(keep, Reverse(Values(t[i..]))) <= Filter(keep, Reverse(Values(t)))
  {
    assert t == t[..i] + t[i..];
    assert Values(t) == Values(t[..i]) + Values(t[i..]);
    ReverseConcat(Values(t[..i]), Values(t[i..]));
    FilterConcat(keep, Reverse(Values(t[i..])), Reverse(Values(t[..i])));
  }

  /** The first stored record carrying `id`, scanning in key order. */
  function FindById(t: Tree<MessageRecord>, id: string): (r: Option<MessageRecord>)
    ensures r.None? <==> forall i :: 0 <= i < |t| ==> t[i].value.id != id
    ensures r.Some? ==> r.value.id == id && r.value in Values(t)
  {
    if t == [] then None
    else if t[0].value.id == id then
      assert Values(t)[0] == t[0].value;
      Some(t[0].value)
    else
      assert Values(t) == [t[0].value] + Values(t[1..]);
      assert forall i :: 0 < i < |t| ==> t[i] == t[1..][i - 1];
      FindById(t[1..], id)
  }

  function MarkDeliveredIn(t: Tree<MessageRecord>, id: string): Tree<MessageRecord> {
    match FindById(t, id)
    case None => t
    case Some(r) => Put(t, KeyOf(r), r.(delivered := true))
  }

  lemma FindByIdIsOldest(t: Tree<MessageRecord>, id: string, i: nat)
    requires WellKeyed(t) && i < |t| && t[i].value.id == id
    ensures FindById(t, id).value.timestamp <= t[i].value.timestamp
    ensures Entry(KeyOf(FindById(t, id).value), FindById(t, id).value) in t
  {
    if t[0].value.id == id {
      assert t[0] in t;
      if i > 0 {
        KeyOrder(t[0].value.timestamp, t[0].value.id, t[i].value.timestamp, t[i].value.id);
      }
    } else {
      FindByIdIsOldest(t[1..], id, i - 1);
    }
  }

  lemma RecordOfKey(t: Tree<MessageRecord>, r: MessageRecord, i: nat)
    requires WellKeyed(t) && i < |t| && Entry(KeyOf(r), r) in t
    ensures t[i].value == r <==> t[i].key == KeyOf(r)
  {
    if t[i].key == KeyOf(r) {
      var j :| 0 <= j < |t| && t[j] == Entry(KeyOf(r), r);
      AscendingDistinct(t, i, j);
    }
  }

  /** `u` is `t` with record `r` replaced by `d` and everything else in its place. */
  ghost predicate OneRewritten(t: Tree<MessageRecord>, u: Tree<MessageRecord>, r: MessageRecord, d: MessageRecord) {
    && |u| == |t|
    && forall i :: 0 <= i < |t| ==>
         u[i].key == t[i].key && u[i].value == if t[i].value == r then d else t[i].value
  }

  lemma RewriteInPlace(t: Tree<MessageRecord>, r: MessageRecord, d: MessageRecord)
    requires WellKeyed(t) && Entry(KeyOf(r), r) in t
    requires KeyOf(d) == KeyOf(r) && d.timestamp == r.timestamp
    ensures WellKeyed(Put(t, KeyOf(r), d))
    ensures OneRewritten(t, Put(t, KeyOf(r), d), r, d)
  {
    PutExisting(t, KeyOf(r), d);
    PutAscending(t, KeyOf(r), d);
    forall i | 0 <= i < |t|
      ensures t[i].value == r <==> t[i].key == KeyOf(r)
    {
      RecordOfKey(t, r, i);
    }
  }

  ghost predicate Oldest(t: Tree<MessageRecord>, r: MessageRecord) {
    forall i :: 0 <= i < |t| && t[i].value.id == r.id ==> r.timestamp <= t[i].value.timestamp
  }

  /**
   Marking delivered rewrites exactly one record, the oldest with that id, and
   only its delivered flag, so every record keeps its place in the store.
   */
  lemma MarkDeliveredRewritesOne(t: Tree<MessageRecord>, id: string)
    requires WellKeyed(t)
    ensures WellKeyed(MarkDeliveredIn(t, id))
    ensures match FindById(t, id)
            case None => MarkDeliveredIn(t, id) == t
            case Some(r) => Oldest(t, r) && OneRewritten(t, MarkDeliveredIn(t, id), r, r.(delivered := true))
  {
    match FindById(t, id)
    case None =>
    case Some(r) =>
      forall i | 0 <= i < |t| && t[i].value.id == id
        ensures r.timestamp <= t[i].value.timestamp
      {
        FindByIdIsOldest(t, id, i);
      }
      var k :| 0 <= k < |t| && t[k].value.id == id;
      FindByIdIsOldest(t, id, k);
      RewriteInPlace(t, r, r.(delivered := true));
  }

  class MessageHistory {
    var db: Tree<MessageRecord>
    /** Lower-casing, as the runtime's Unicode tables define it. */
    const lower: string -> string

    ghost predicate Valid()
      reads this
    {
      WellKeyed(db)
    }

    constructor (lower: string -> string)
      ensures Valid() && db == [] && this.lower == lower
    {
      this.lower := lower;
      db := [];
    }

    method Add(record: MessageRecord)
      requires Valid() && record.timestamp < U64_LIMIT
      modifies this`db
      ensures Valid() && db == Put(old(db), KeyOf(record), record)
    {
      PutAscending(db, KeyOf(record), record);
      forall e | e in Put(db, KeyOf(record), record)
        ensures e.value.timestamp < U64_LIMIT && e.key == KeyOf(e.value)
      {
        PutMember(db, KeyOf(record), record, e);
      }
      db := Put(db, KeyOf(record), record);
    }

    method Get(id: string) returns (r: Option<MessageRecord>)
      ensures r == FindById(db, id)
    {
      var i := 0;
      while i < |db|
        invariant 0 <= i <= |db|
        invariant FindById(db, id) == FindById(db[i..], id)
      {
        if db[i].value.id == id {
          return Some(db[i].value);
        }
        i := i + 1;
      }
      return None;
    }

    /** The backward walk shared by both queries: push first, then test the limit. */
    method ScanBackward(keep: MessageRecord -> bool, limit: nat) returns (messages: seq<MessageRecord>)
      requires Valid()
      ensures messages == NewestMatching(keep, Values(db), Max(limit, 1))
    {
      messages := [];
      var i := |db|;
      ReverseScanIsSort(db, keep);
      while i > 0
        invariant 0 <= i <= |db|
        invariant messages == Filter(keep, Reverse(Values(db[i..])))
        invariant |messages| < Max(limit, 1)
      {
        i := i - 1;
        ScanStep(db, i, keep);
        ScanPrefix(db, i, keep);
        if !keep(db[i].value) {
          continue;
        }
        messages := messages + [db[i].value];
        if |messages| >= limit {
          break;
        }
      }
      ScanPrefix(db, i, keep);
      assert db[0..] == db;
    }

    method Recent(peerFilter: Option<string>, limit: nat) returns (messages: seq<MessageRecord>)
      requires Valid()
      ensures messages ==
              NewestMatching((m: MessageRecord) => peerFilter.None? || m.Peer() == peerFilter.value,
                             Values(db), Max(limit, 1))
      ensures Answers(db, (m: MessageRecord) =>
                        peerFilter.None? || (if m.direction == Sent then m.toPeer else m.fromPeer) == peerFilter.value,
                      Max(limit, 1), messages)
    {
      hide Answers, NewestMatching, WellKeyed;
      var keep := (m: MessageRecord) => peerFilter.None? || m.Peer() == peerFilter.value;
      messages := ScanBackward(keep, limit);
      NewestAnswers(db, keep, Max(limit, 1));
      SameQuestion(db, keep, (m: MessageRecord) =>
                     peerFilter.None? || (if m.direction == Sent then m.toPeer else m.fromPeer) == peerFilter.value,
                   Max(limit, 1), messages);
    }

    method Search(query: string, limit: nat) returns (messages: seq<MessageRecord>)
      requires Valid()
      ensures messages ==
              NewestMatching((m: MessageRecord) => Contains(lower(m.content), lower(query)),
                             Values(db), Max(limit, 1))
      ensures Answers(db, (m: MessageRecord) => Contains(lower(m.content), lower(query)), Max(limit, 1), messages)
    {
      NewestAnswers(db, (m: MessageRecord) => Contains(lower(m.content), lower(query)), Max(limit, 1));
      var queryLower := lower(query);
      messages := ScanBackward((m: MessageRecord) => Contains(lower(m.content), queryLower), limit);
    }

    method MarkDelivered(id: string)
      requires Valid()
      modifies this`db
      ensures Valid() && db == MarkDeliveredIn(old(db), id)
    {
      MarkDeliveredRewritesOne(db, id);
      var found := Get(id);
      if found.Some? {
        var k :| 0 <= k < |db| && db[k].value == found.value;
        Add(found.value.(delivered := true));
      }
    }
  }
}
