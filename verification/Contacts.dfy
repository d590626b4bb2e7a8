/**
 The mobile contact book (core/src/contacts_bridge.rs): last-writer-wins merging of
 another device's contacts, and recovery of contacts from message history.
 */
module Contacts {
  import opened Sequences
  import MobileHistory

  datatype Contact = Contact(
    peerId: string,
    nickname: Option<string>,
    localNickname: Option<string>,
    publicKey: string,
    addedAt: nat,
    lastSeen: Option<nat>,
    notes: Option<string>,
    lastKnownDeviceId: Option<string>,
    verifiedAt: Option<nat>,
    isTombstone: bool)

  type Book = map<string, Contact>

  ghost predicate WellKeyed(m: Book) {
    forall k :: k in m ==> m[k].peerId == k
  }

  /** The newer remote record, keeping local-only fields the remote does not set. */
  function Supersede(remote: Contact, mine: Contact): Contact {
    remote.(localNickname := if remote.localNickname.None? then mine.localNickname else remote.localNickname,
            verifiedAt := if remote.verifiedAt.None? then mine.verifiedAt else remote.verifiedAt)
  }

  predicate Updates(m: Book, remote: Contact) {
    remote.peerId in m ==> remote.addedAt > m[remote.peerId].addedAt
  }

  function MergeOne(m: Book, remote: Contact): Book {
    var k := remote.peerId;
    if !Updates(m, remote) then m
    else m[k := if k in m then Supersede(remote, m[k]) else remote]
  }

  function MergeAll(m: Book, remotes: seq<Contact>): Book {
    if remotes == [] then m else MergeOne(MergeAll(m, remotes[..|remotes| - 1]), remotes[|remotes| - 1])
  }

  /** How many of the remote contacts were taken over. */
  function UpdateCount(m: Book, remotes: seq<Contact>): nat {
    if remotes == [] then 0
    else
      var front, last := remotes[..|remotes| - 1], remotes[|remotes| - 1];
      UpdateCount(m, front) + if Updates(MergeAll(m, front), last) then 1 else 0
  }

  // ----------------------------------------------------------------- merge

  /** `a` is no older than `b` and lost none of the local-only fields. */
  ghost predicate Succeeds(a: Contact, b: Contact) {
    && b.addedAt <= a.addedAt
    && (b.localNickname.Some? ==> a.localNickname.Some?)
    && (b.verifiedAt.Some? ==> a.verifiedAt.Some?)
  }

  /** Merging removes no contact, lowers no timestamp and unsets no local nickname or verification. */
  lemma {:induction false} MergeOnlyAdvances(m: Book, remotes: seq<Contact>)
    ensures m.Keys <= MergeAll(m, remotes).Keys
    ensures forall k :: k in m ==> Succeeds(MergeAll(m, remotes)[k], m[k])
  {
    if remotes != [] {
      MergeOnlyAdvances(m, remotes[..|remotes| - 1]);
    }
  }

  lemma {:induction false} MergeCatchesUp(m: Book, remotes: seq<Contact>, i: nat)
    requires i < |remotes|
    ensures !Updates(MergeAll(m, remotes), remotes[i])
  {
    var front, last := remotes[..|remotes| - 1], remotes[|remotes| - 1];
    if i < |front| {
      MergeCatchesUp(m, front, i);
      assert front[i] == remotes[i];
    }
  }

  lemma {:induction false} NothingLeft(m: Book, remotes: seq<Contact>)
    requires forall i :: 0 <= i < |remotes| ==> !Updates(m, remotes[i])
    ensures MergeAll(m, remotes) == m && UpdateCount(m, remotes) == 0
  {
    if remotes != [] {
      NothingLeft(m, remotes[..|remotes| - 1]);
    }
  }

  /** Merging the same contacts again updates none and changes nothing. */
  lemma MergeIdempotent(m: Book, remotes: seq<Contact>)
    ensures MergeAll(MergeAll(m, remotes), remotes) == MergeAll(m, remotes)
    ensures UpdateCount(MergeAll(m, remotes), remotes) == 0
  {
    forall i | 0 <= i < |remotes|
      ensures !Updates(MergeAll(m, remotes), remotes[i])
    {
      MergeCatchesUp(m, remotes, i);
    }
    NothingLeft(MergeAll(m, remotes), remotes);
  }

  // -------------------------------------------------------------- exchange

  /** `list` enumerates the contacts of `m` once each, in some order. */
  ghost predicate ListOf(m: Book, list: seq<Contact>) {
    && (forall i, j :: 0 <= i < j < |list| ==> list[i].peerId != list[j].peerId)
    && (forall c :: c in list <==> c.peerId in m && m[c.peerId] == c)
  }

  /** What one key holds after merging a list with one contact per peer. */
  function Winner(mine: Option<Contact>, remote: Option<Contact>): Option<Contact> {
    match (mine, remote)
    case (None, _) => remote
    case (_, None) => mine
    case (Some(a), Some(b)) => if b.addedAt > a.addedAt then Some(Supersede(b, a)) else mine
  }

  function Lookup(m: Book, k: string): Option<Contact> {
    if k in m then Some(m[k]) else None
  }

  ghost function FindIn(list: seq<Contact>, k: string): Option<Contact> {
    if list == [] then None
    else if list[|list| - 1].peerId == k then Some(list[|list| - 1])
    else FindIn(list[..|list| - 1], k)
  }

  lemma FindAbsent(list: seq<Contact>, k: string)
    requires forall i :: 0 <= i < |list| ==> list[i].peerId != k
    ensures FindIn(list, k) == None
  {
  }

  lemma {:induction false} MergeByKey(m: Book, list: seq<Contact>, k: string)
    requires forall i, j :: 0 <= i < j < |list| ==> list[i].peerId != list[j].peerId
    ensures Lookup(MergeAll(m, list), k) == Winner(Lookup(m, k), FindIn(list, k))
  {
    if list != [] {
      var front, last := list[..|list| - 1], list[|list| - 1];
      MergeByKey(m, front, k);
      if last.peerId == k {
        FindAbsent(front, k);
      }
    }
  }

  /**
   Field by field: the record with the larger added_at wins, the own one on a tie; of a winning remote
   record only a local nickname or verification it lacks is filled in from the own one.
   */
  lemma LastWriterWins(m: Book, list: seq<Contact>, mine: Contact, remote: Contact)
    requires forall i, j :: 0 <= i < j < |list| ==> list[i].peerId != list[j].peerId
    requires mine.peerId in m && m[mine.peerId] == mine && remote in list && remote.peerId == mine.peerId
    ensures mine.peerId in MergeAll(m, list)
    ensures var r := MergeAll(m, list)[mine.peerId];
            if remote.addedAt <= mine.addedAt then r == mine
            else
              && r == remote.(localNickname := r.localNickname, verifiedAt := r.verifiedAt)
              && r.localNickname == (if remote.localNickname.Some? then remote else mine).localNickname
              && r.verifiedAt == (if remote.verifiedAt.Some? then remote else mine).verifiedAt
  {
    MergeByKey(m, list, mine.peerId);
    FindMember(list, mine.peerId);
  }

  /** The remote record is of a new peer or newer than the own one. */
  function IsNews(m: Book): Contact -> bool {
    (c: Contact) => c.peerId !in m || c.addedAt > m[c.peerId].addedAt
  }

  /** With one record per peer, the count is the number of records that were news. */
  lemma {:induction false} CountsTheNews(m: Book, list: seq<Contact>)
    requires forall i, j :: 0 <= i < j < |list| ==> list[i].peerId != list[j].peerId
    ensures UpdateCount(m, list) == |set i | 0 <= i < |list| && IsNews(m)(list[i])|
  {
    CountsFiltered(m, list);
    FilterPlaces(IsNews(m), list);
    assert Places(IsNews(m), list) == set i | 0 <= i < |list| && IsNews(m)(list[i]);
  }

  lemma {:induction false} CountsFiltered(m: Book, list: seq<Contact>)
    requires forall i, j :: 0 <= i < j < |list| ==> list[i].peerId != list[j].peerId
    ensures UpdateCount(m, list) == |Filter(IsNews(m), list)|
  {
    if list != [] {
      var front, last := list[..|list| - 1], list[|list| - 1];
      CountsFiltered(m, front);
      assert front + [last] == list;
      FilterAppend(IsNews(m), front, last);
      MergeByKey(m, front, last.peerId);
      FindAbsent(front, last.peerId);
      assert Updates(MergeAll(m, front), last) <==> IsNews(m)(last) by {
        assert Lookup(MergeAll(m, front), last.peerId) == Lookup(m, last.peerId);
      }
    }
  }

  predicate Tombstoned(c: Option<Contact>) {
    c.Some? && c.value.isTombstone
  }

  /** A tombstone, own or remote, survives a merge exactly when the other record is absent, not newer, or one too. */
  lemma TombstoneSurvivesExactlyWhen(m: Book, list: seq<Contact>, k: string)
    requires forall i, j :: 0 <= i < j < |list| ==> list[i].peerId != list[j].peerId
    ensures var mine, remote := Lookup(m, k), FindIn(list, k);
            Tombstoned(Lookup(MergeAll(m, list), k)) <==>
            || (Tombstoned(mine) && Tombstoned(remote))
            || (Tombstoned(mine) && (remote.None? || remote.value.addedAt <= mine.value.addedAt))
            || (Tombstoned(remote) && (mine.None? || remote.value.addedAt > mine.value.addedAt))
  {
    MergeByKey(m, list, k);
  }

  /** So removing a contact does not last: a record another device re-added later brings it back. */
  lemma LaterRecordRevives(mine: Contact, remote: Contact)
    requires mine.isTombstone && !remote.isTombstone && mine.peerId == remote.peerId && mine.addedAt < remote.addedAt
    ensures var r := MergeAll(map[mine.peerId := mine], [remote]);
            mine.peerId in r && !r[mine.peerId].isTombstone
  {
    var m, k := map[mine.peerId := mine], mine.peerId;
    TombstoneSurvivesExactlyWhen(m, [remote], k);
    MergeByKey(m, [remote], k);
    assert FindIn([remote], k) == Some(remote);
  }

  lemma {:induction false} FindMember(list: seq<Contact>, k: string)
    ensures FindIn(list, k).Some? ==> FindIn(list, k).value in list && FindIn(list, k).value.peerId == k
    ensures FindIn(list, k).None? ==> forall i :: 0 <= i < |list| ==> list[i].peerId != k
  {
    if list != [] {
      FindMember(list[..|list| - 1], k);
    }
  }

  lemma ListFinds(m: Book, list: seq<Contact>, k: string)
    requires WellKeyed(m) && ListOf(m, list)
    ensures FindIn(list, k) == Lookup(m, k)
  {
    FindMember(list, k);
    if k in m {
      assert m[k] in list;
    }
  }

  /** Everything a device shares: all but the local nickname and the verification. */
  function Shared(c: Contact): Contact {
    c.(localNickname := None, verifiedAt := None)
  }

  /** Records of one peer made at one moment are the same record. */
  ghost predicate Consistent(a: Book, b: Book) {
    forall k :: k in a && k in b && a[k].addedAt == b[k].addedAt ==> Shared(a[k]) == Shared(b[k])
  }

  /**
   Two replicas that exchange their lists end with the same peers and the same timestamps, and,
   if equal timestamps meant equal records, with the same contacts up to the local-only fields.
   */
  lemma ReplicasAgree(a: Book, b: Book, listA: seq<Contact>, listB: seq<Contact>, k: string)
    requires WellKeyed(a) && WellKeyed(b) && ListOf(a, listA) && ListOf(b, listB)
    ensures k in MergeAll(a, listB) <==> k in MergeAll(b, listA)
    ensures k in MergeAll(a, listB) ==> MergeAll(a, listB)[k].addedAt == MergeAll(b, listA)[k].addedAt
    ensures k in MergeAll(a, listB) && Consistent(a, b) ==>
              Shared(MergeAll(a, listB)[k]) == Shared(MergeAll(b, listA)[k])
  {
    MergeByKey(a, listB, k);
    MergeByKey(b, listA, k);
    ListFinds(a, listA, k);
    ListFinds(b, listB, k);
  }

  /** After one exchange there is nothing left to exchange. */
  lemma ExchangeSettles(a: Book, b: Book, listA: seq<Contact>, listB: seq<Contact>, again: seq<Contact>)
    requires WellKeyed(a) && WellKeyed(b) && ListOf(a, listA) && ListOf(b, listB)
    requires ListOf(MergeAll(b, listA), again)
    ensures MergeAll(MergeAll(a, listB), again) == MergeAll(a, listB)
    ensures UpdateCount(MergeAll(a, listB), again) == 0
  {
    forall i | 0 <= i < |again|
      ensures !Updates(MergeAll(a, listB), again[i])
    {
      ReplicasAgree(a, b, listA, listB, again[i].peerId);
      assert again[i] in again;
    }
    NothingLeft(MergeAll(a, listB), again);
  }

  // -------------------------------------------------------------- recovery

  /** A placeholder contact: the peer id stands in for the unknown public key. */
  function Placeholder(peerId: string, now: nat): Contact {
    Contact(peerId, None, None, peerId, now, None, None, None, None, false)
  }

  ghost predicate Recovered(before: Book, peers: set<string>, after: Book, now: nat) {
    && after.Keys == before.Keys + peers
    && forall k :: k in after ==> after[k] == if k in before then before[k] else Placeholder(k, now)
  }

  function PeersOf(messages: seq<MobileHistory.MessageRecord>): set<string> {
    if messages == [] then {} else PeersOf(messages[..|messages| - 1]) + {messages[|messages| - 1].peerId}
  }

  lemma PeersOfNext(messages: seq<MobileHistory.MessageRecord>, i: nat)
    requires i < |messages|
    ensures PeersOf(messages[..i + 1]) == PeersOf(messages[..i]) + {messages[i].peerId}
  {
    assert messages[..i + 1][..i] == messages[..i];
  }

  lemma RecoveredNext(before: Book, peers: set<string>, db: Book, peer: string, now: nat)
    requires Recovered(before, peers, db, now)
    ensures Recovered(before, peers + {peer}, if peer in db then db else db[peer := Placeholder(peer, now)], now)
  {
  }

  class ContactManager {
    var db: Book

    ghost predicate Valid()
      reads this
    {
      WellKeyed(db)
    }

    constructor ()
      ensures Valid() && db == map[]
    {
      db := map[];
    }

    method Add(contact: Contact)
      requires Valid()
      modifies this
      ensures Valid() && db == old(db)[contact.peerId := contact]
    {
      db := db[contact.peerId := contact];
    }

    method MergeRemoteContacts(remotes: seq<Contact>) returns (updated: nat)
      requires Valid()
      modifies this
      ensures Valid() && db == MergeAll(old(db), remotes)
      ensures updated == UpdateCount(old(db), remotes)
    {
      ghost var before := db;
      updated := 0;
      for i := 0 to |remotes|
        invariant Valid() && db == MergeAll(before, remotes[..i]) && updated == UpdateCount(before, remotes[..i])
      {
        var remote := remotes[i];
        assert remotes[..i + 1][..i] == remotes[..i];
        if remote.peerId in db {
          var mine := db[remote.peerId];
          if remote.addedAt > mine.addedAt {
            var merged := remote;
            if merged.localNickname.None? && mine.localNickname.Some? {
              merged := merged.(localNickname := mine.localNickname);
            }
            if merged.verifiedAt.None? && mine.verifiedAt.Some? {
              merged := merged.(verifiedAt := mine.verifiedAt);
            }
            Add(merged);
            updated := updated + 1;
          }
        } else {
          Add(remote);
          updated := updated + 1;
        }
      }
      assert remotes[..|remotes|] == remotes;
    }

    /** Adds a placeholder for every listed message's peer that is not yet a contact. */
    method ReconcileFromHistory(history: MobileHistory.Store, now: nat) returns (recovered: nat)
      requires Valid()
      modifies this
      ensures Valid()
      ensures Recovered(old(db), PeersOf(MobileHistory.Recent(history, None, 10000)), db, now)
      ensures recovered == |db| - |old(db)|
      ensures forall k :: k in db <==>
                k in old(db) || exists m :: m in MobileHistory.Recent(history, None, 10000) && m.peerId == k
      ensures forall k :: k in db && k !in old(db) ==>
                db[k] == Contact(k, None, None, k, now, None, None, None, None, false)
    {
      hide Recovered, PeersOf, MobileHistory.Recent;
      var messages := MobileHistory.Recent(history, None, 10000);
      ghost var before := db;
      recovered := 0;
      RecoveredNothing(db, now);
      for i := 0 to |messages|
        invariant Valid()
        invariant Recovered(before, PeersOf(messages[..i]), db, now)
        invariant recovered == |db| - |before|
      {
        var peer := messages[i].peerId;
        PeersOfNext(messages, i);
        RecoveredNext(before, PeersOf(messages[..i]), db, peer, now);
        if peer !in db {
          Add(Placeholder(peer, now));
          recovered := recovered + 1;
        }
      }
      assert messages[..|messages|] == messages;
      RecoveredAre(before, messages, db, now);
    }
  }

  lemma {:induction false} PeersOfMember(messages: seq<MobileHistory.MessageRecord>, k: string)
    ensures k in PeersOf(messages) <==> exists m :: m in messages && m.peerId == k
  {
    if messages != [] {
      var front, last := messages[..|messages| - 1], messages[|messages| - 1];
      PeersOfMember(front, k);
      assert messages == front + [last];
    }
  }

  lemma RecoveredAre(before: Book, messages: seq<MobileHistory.MessageRecord>, after: Book, now: nat)
    requires Recovered(before, PeersOf(messages), after, now)
    ensures forall k :: k in after <==> k in before || exists m :: m in messages && m.peerId == k
    ensures forall k :: k in after && k !in before ==> after[k] == Placeholder(k, now)
  {
    hide PeersOf;
    forall k
      ensures k in after <==> k in before || exists m :: m in messages && m.peerId == k
    {
      PeersOfMember(messages, k);
      assert k in after.Keys <==> k in before.Keys + PeersOf(messages);
    }
  }

  lemma RecoveredNothing(m: Book, now: nat)
    ensures Recovered(m, PeersOf([]), m, now)
  {
  }

  /** Recovering twice from the same history recovers nothing more. */
  lemma RecoveryIdempotent(before: Book, peers: set<string>, after: Book, again: Book, t1: nat, t2: nat)
    requires Recovered(before, peers, after, t1) && Recovered(after, peers, again, t2)
    ensures again == after
  {
    assert again.Keys == after.Keys;
  }
}
