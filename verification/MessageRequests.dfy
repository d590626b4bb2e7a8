/**
 Message requests (cli/src/server.rs): inbox messages grouped by sender for every sender
 who is neither a contact nor blocked, and the accept and reject steps.

 `text` turns a payload into its preview, "[binary]" when it is not UTF-8.
 */
module MessageRequests {
  import opened Sequences

  datatype ReceivedMessage = ReceivedMessage(
    messageId: string,
    senderId: string,
    payload: seq<int>,
    receivedAt: nat,
    senderPublicKeyHex: Option<string>)

  datatype Request = Request(peerId: string, preview: string, timestamp: nat, count: nat)

  type Preview = seq<int> -> string
  type Inbox = seq<ReceivedMessage>

  function Eligible(contacts: set<string>, blocked: set<string>): ReceivedMessage -> bool {
    (m: ReceivedMessage) => m.senderId !in contacts && m.senderId !in blocked
  }

  function From(peer: string): ReceivedMessage -> bool {
    (m: ReceivedMessage) => m.senderId == peer
  }

  function FromAny(peers: set<string>): ReceivedMessage -> bool {
    (m: ReceivedMessage) => m.senderId in peers
  }

  /** The latest message, the last one where several arrived together. */
  function Latest(s: seq<ReceivedMessage>): (r: ReceivedMessage)
    requires s != []
    ensures r in s && forall m :: m in s ==> m.receivedAt <= r.receivedAt
    ensures exists i :: 0 <= i < |s| && s[i] == r && forall j :: i < j < |s| ==> s[j].receivedAt < r.receivedAt
  {
    var n := |s| - 1;
    if n == 0 then s[0]
    else
      assert s == s[..n] + [s[n]];
      var best := Latest(s[..n]);
      if best.receivedAt > s[n].receivedAt then best else s[n]
  }

  function Row(text: Preview, peer: string, group: seq<ReceivedMessage>): Request
    requires group != []
  {
    Request(peer, text(Latest(group).payload), Latest(group).receivedAt, |group|)
  }

  function Newest(): (Request, Request) -> bool {
    (a: Request, b: Request) => a.timestamp >= b.timestamp
  }

  function Total(rows: seq<Request>): nat {
    if rows == [] then 0 else rows[0].count + Total(rows[1..])
  }

  // ------------------------------------------------------------- the view

  ghost predicate OneRowEach(rows: seq<Request>) {
    forall i, j :: 0 <= i < j < |rows| ==> rows[i].peerId != rows[j].peerId
  }

  /** Row `r` sums up exactly the messages of its sender. */
  ghost predicate Summarises(text: Preview, messages: seq<ReceivedMessage>, r: Request) {
    var group := Filter(From(r.peerId), messages);
    group != [] && r == Row(text, r.peerId, group)
  }

  /** What the pending list promises of the eligible messages. */
  ghost predicate PendingView(text: Preview, messages: seq<ReceivedMessage>, rows: seq<Request>) {
    && SortedBy(Newest(), rows) && OneRowEach(rows)
    && (forall r :: r in rows ==> Summarises(text, messages, r))
    && (forall m :: m in messages ==> exists r :: r in rows && r.peerId == m.senderId)
    && Total(rows) == |messages|
  }

  /** The positions of a sender's messages. */
  ghost function Places(messages: seq<ReceivedMessage>, peer: string): set<nat> {
    set i | 0 <= i < |messages| && messages[i].senderId == peer
  }

  /** Message `i` is its sender's latest, the last one where several arrived together. */
  ghost predicate LatestAt(messages: seq<ReceivedMessage>, i: nat) {
    && i < |messages|
    && forall j :: 0 <= j < |messages| && messages[j].senderId == messages[i].senderId ==>
         if j > i then messages[j].receivedAt < messages[i].receivedAt
         else messages[j].receivedAt <= messages[i].receivedAt
  }

  lemma GroupPlaces(messages: seq<ReceivedMessage>, peer: string)
    ensures |Filter(From(peer), messages)| == |Places(messages, peer)|
  {
    FilterPlaces(From(peer), messages);
    assert Sequences.Places(From(peer), messages) == Places(messages, peer);
  }

  lemma LatestNext(messages: seq<ReceivedMessage>, m: ReceivedMessage, i: nat)
    requires LatestAt(messages, i)
    ensures m.senderId != messages[i].senderId || messages[i].receivedAt > m.receivedAt ==> LatestAt(messages + [m], i)
    ensures m.senderId == messages[i].senderId && messages[i].receivedAt <= m.receivedAt ==>
              LatestAt(messages + [m], |messages|)
  {
  }

  lemma FirstIsLatest(messages: seq<ReceivedMessage>, m: ReceivedMessage)
    requires Filter(From(m.senderId), messages) == []
    ensures LatestAt(messages + [m], |messages|)
  {
    forall j | 0 <= j < |messages|
      ensures messages[j].senderId != m.senderId
    {
      FilterMember(From(m.senderId), messages, messages[j]);
    }
  }

  /** The latest of a group is the sender's latest message in the whole inbox. */
  lemma {:induction false} GroupLatest(messages: seq<ReceivedMessage>, peer: string) returns (i: nat)
    requires Filter(From(peer), messages) != []
    ensures i < |messages| && LatestAt(messages, i) && messages[i].senderId == peer
    ensures messages[i] == Latest(Filter(From(peer), messages))
  {
    hide Filter, LatestAt;
    if messages == [] {
      FilterAll(From(peer), messages);
      assert false;
    }
    var front, m := messages[..|messages| - 1], messages[|messages| - 1];
    var group := Filter(From(peer), front);
    assert front + [m] == messages;
    FilterAppend(From(peer), front, m);
    if group == [] {
      assert From(peer)(m);
      FirstIsLatest(front, m);
      i := |front|;
      assert messages[i] == m && group + [m] == [m];
    } else {
      i := GroupLatest(front, peer);
      LatestNext(front, m, i);
      assert (group + [m])[..|group|] == group;
      if m.senderId == peer && front[i].receivedAt <= m.receivedAt {
        i := |front|;
      }
    }
  }

  /** A row counts its sender's messages and shows the time and text of the latest one. */
  ghost predicate TellsLatest(text: Preview, messages: seq<ReceivedMessage>, r: Request) {
    && r.count == |Places(messages, r.peerId)|
    && exists i: nat ::
         && LatestAt(messages, i) && messages[i].senderId == r.peerId
         && messages[i].receivedAt == r.timestamp && text(messages[i].payload) == r.preview
  }

  lemma RowTellsTheLatest(text: Preview, messages: seq<ReceivedMessage>, r: Request)
    requires Summarises(text, messages, r)
    ensures TellsLatest(text, messages, r)
  {
    hide Filter, LatestAt, Places;
    GroupPlaces(messages, r.peerId);
    var i := GroupLatest(messages, r.peerId);
  }

  /**
   What the pending list says of the inbox itself: one row for each sender who is neither a contact nor
   blocked and for nobody else, telling of all that sender's messages, the latest row first.
   */
  ghost predicate InboxView(
    text: Preview, inbox: Inbox, contacts: set<string>, blocked: set<string>, rows: seq<Request>)
  {
    && (forall i, j :: 0 <= i < j < |rows| ==>
          rows[i].peerId != rows[j].peerId && rows[i].timestamp >= rows[j].timestamp)
    && (forall r :: r in rows ==> r.peerId !in contacts && r.peerId !in blocked && TellsLatest(text, inbox, r))
    && (forall m :: m in inbox && m.senderId !in contacts && m.senderId !in blocked ==>
          exists r :: r in rows && r.peerId == m.senderId)
  }

  lemma WholeGroup(inbox: Inbox, contacts: set<string>, blocked: set<string>, peer: string)
    requires peer !in contacts && peer !in blocked
    ensures Filter(From(peer), Filter(Eligible(contacts, blocked), inbox)) == Filter(From(peer), inbox)
  {
    FilterTwice(From(peer), Eligible(contacts, blocked), From(peer), inbox);
  }

  /** The pending list of the eligible messages is that view of the inbox. */
  lemma ViewOfInbox(text: Preview, inbox: Inbox, contacts: set<string>, blocked: set<string>, rows: seq<Request>)
    requires PendingView(text, Filter(Eligible(contacts, blocked), inbox), rows)
    ensures InboxView(text, inbox, contacts, blocked, rows)
  {
    hide Filter, TellsLatest, Row, Total;
    var messages := Filter(Eligible(contacts, blocked), inbox);
    forall r | r in rows
      ensures r.peerId !in contacts && r.peerId !in blocked && TellsLatest(text, inbox, r)
    {
      assert Summarises(text, messages, r);
      var m := Filter(From(r.peerId), messages)[0];
      FilterMember(From(r.peerId), messages, m);
      FilterMember(Eligible(contacts, blocked), inbox, m);
      WholeGroup(inbox, contacts, blocked, r.peerId);
      assert Summarises(text, inbox, r);
      RowTellsTheLatest(text, inbox, r);
    }
    forall m | m in inbox && m.senderId !in contacts && m.senderId !in blocked
      ensures exists r :: r in rows && r.peerId == m.senderId
    {
      FilterMember(Eligible(contacts, blocked), inbox, m);
    }
  }

  lemma RowIsDetermined(text: Preview, messages: seq<ReceivedMessage>, a: seq<Request>, b: seq<Request>, r: Request)
    requires PendingView(text, messages, a) && PendingView(text, messages, b) && r in a
    ensures r in b
  {
    var group := Filter(From(r.peerId), messages);
    assert Summarises(text, messages, r);
    FilterMember(From(r.peerId), messages, group[0]);
    var t :| t in b && t.peerId == group[0].senderId;
    assert Summarises(text, messages, t);
  }

  /** Two polls of one inbox give the same rows, whatever order the hash map yields. */
  lemma ViewsHoldTheSameRows(text: Preview, messages: seq<ReceivedMessage>, a: seq<Request>, b: seq<Request>)
    requires PendingView(text, messages, a) && PendingView(text, messages, b)
    ensures forall r :: r in a <==> r in b
  {
    forall r
      ensures r in a <==> r in b
    {
      if r in a {
        RowIsDetermined(text, messages, a, b, r);
      }
      if r in b {
        RowIsDetermined(text, messages, b, a, r);
      }
    }
  }

  lemma RowsCountOnce(rows: seq<Request>, r: Request)
    requires OneRowEach(rows)
    ensures multiset(rows)[r] == if r in rows then 1 else 0
  {
    if rows != [] {
      assert rows == [rows[0]] + rows[1..];
      RowsCountOnce(rows[1..], r);
    }
  }

  /** And in the same order, when no two senders wrote at the same latest moment. */
  lemma ViewIsUnique(text: Preview, messages: seq<ReceivedMessage>, a: seq<Request>, b: seq<Request>)
    requires PendingView(text, messages, a) && PendingView(text, messages, b)
    requires NoTies(Newest(), a)
    ensures a == b
  {
    hide PendingView, Total;
    ViewShape(text, messages, a);
    ViewShape(text, messages, b);
    ViewsHoldTheSameRows(text, messages, a, b);
    forall r
      ensures multiset(a)[r] == multiset(b)[r]
    {
      RowsCountOnce(a, r);
      RowsCountOnce(b, r);
    }
    SortedUnique(Newest(), a, b);
  }

  lemma ViewShape(text: Preview, messages: seq<ReceivedMessage>, rows: seq<Request>)
    requires PendingView(text, messages, rows)
    ensures SortedBy(Newest(), rows) && OneRowEach(rows)
  {
  }

  /** A sender who is a contact or blocked has no row, whatever arrives in the inbox. */
  lemma SettledNeverReappears(
    text: Preview, inbox: Inbox, contacts: set<string>, blocked: set<string>, rows: seq<Request>, peer: string)
    requires PendingView(text, Filter(Eligible(contacts, blocked), inbox), rows)
    requires peer in contacts || peer in blocked
    ensures forall r :: r in rows ==> r.peerId != peer
  {
    var messages := Filter(Eligible(contacts, blocked), inbox);
    forall r | r in rows
      ensures r.peerId != peer
    {
      assert Summarises(text, messages, r);
      var m := Filter(From(r.peerId), messages)[0];
      FilterMember(From(r.peerId), messages, m);
      FilterMember(Eligible(contacts, blocked), inbox, m);
    }
  }

  /** Settling one sender removes its row and leaves every other row as it was. */
  lemma SettlingRemovesOneRow(
    text: Preview, inbox: Inbox, contacts: set<string>, blocked: set<string>, peer: string, accept: bool,
    before: seq<Request>, after: seq<Request>, r: Request)
    requires PendingView(text, Filter(Eligible(contacts, blocked), inbox), before)
    requires PendingView(text, Filter(
               if accept then Eligible(contacts + {peer}, blocked) else Eligible(contacts, blocked + {peer}),
               inbox), after)
    ensures r in after <==> r in before && r.peerId != peer
  {
    var p := Eligible(contacts, blocked);
    var q := if accept then Eligible(contacts + {peer}, blocked) else Eligible(contacts, blocked + {peer});
    if r.peerId == peer {
      if accept {
        SettledNeverReappears(text, inbox, contacts + {peer}, blocked, after, peer);
      } else {
        SettledNeverReappears(text, inbox, contacts, blocked + {peer}, after, peer);
      }
    } else {
      SameGroup(inbox, p, q, r.peerId);
      if r in before {
        CarriesOver(text, Filter(p, inbox), Filter(q, inbox), before, after, r);
      }
      if r in after {
        CarriesOver(text, Filter(q, inbox), Filter(p, inbox), after, before, r);
      }
    }
  }

  lemma SameGroup(inbox: Inbox, p: ReceivedMessage -> bool, q: ReceivedMessage -> bool, peer: string)
    requires forall m: ReceivedMessage :: m.senderId == peer ==> p(m) == q(m)
    ensures Filter(From(peer), Filter(p, inbox)) == Filter(From(peer), Filter(q, inbox))
  {
    var both := (m: ReceivedMessage) => p(m) && From(peer)(m);
    FilterTwice(From(peer), p, both, inbox);
    FilterTwice(From(peer), q, both, inbox);
  }

  lemma CarriesOver(
    text: Preview, a: seq<ReceivedMessage>, b: seq<ReceivedMessage>,
    rows: seq<Request>, rows': seq<Request>, r: Request)
    requires PendingView(text, a, rows) && PendingView(text, b, rows') && r in rows
    requires Filter(From(r.peerId), a) == Filter(From(r.peerId), b)
    ensures r in rows'
  {
    assert Summarises(text, a, r);
    var m := Filter(From(r.peerId), b)[0];
    FilterMember(From(r.peerId), b, m);
    var t :| t in rows' && t.peerId == m.senderId;
    assert Summarises(text, b, t);
  }

  // ------------------------------------------------------------ grouping

  /** `groups` holds each sender's messages, in arrival order, and no empty group. */
  ghost predicate Grouped(groups: map<string, seq<ReceivedMessage>>, messages: seq<ReceivedMessage>) {
    forall p :: (p in groups ==> groups[p] == Filter(From(p), messages) && groups[p] != [])
                && (p !in groups ==> Filter(From(p), messages) == [])
  }

  lemma GroupStep(groups: map<string, seq<ReceivedMessage>>, messages: seq<ReceivedMessage>, m: ReceivedMessage)
    requires Grouped(groups, messages)
    ensures Grouped(groups[m.senderId := (if m.senderId in groups then groups[m.senderId] else []) + [m]],
                    messages + [m])
  {
    hide Filter;
    var r := groups[m.senderId := (if m.senderId in groups then groups[m.senderId] else []) + [m]];
    forall p
      ensures p in r ==> r[p] == Filter(From(p), messages + [m]) && r[p] != []
      ensures p !in r ==> Filter(From(p), messages + [m]) == []
    {
      FilterAppend(From(p), messages, m);
    }
  }

  method GroupBySender(inbox: Inbox, contacts: set<string>, blocked: set<string>)
    returns (groups: map<string, seq<ReceivedMessage>>)
    ensures Grouped(groups, Filter(Eligible(contacts, blocked), inbox))
  {
    hide Grouped, Filter;
    groups := map[];
    NothingGrouped(contacts, blocked, inbox);
    for i := 0 to |inbox|
      invariant Grouped(groups, Filter(Eligible(contacts, blocked), inbox[..i]))
    {
      assert inbox[..i + 1] == inbox[..i] + [inbox[i]];
      FilterAppend(Eligible(contacts, blocked), inbox[..i], inbox[i]);
      if inbox[i].senderId !in contacts && inbox[i].senderId !in blocked {
        GroupStep(groups, Filter(Eligible(contacts, blocked), inbox[..i]), inbox[i]);
        var sender := inbox[i].senderId;
        groups := groups[sender := (if sender in groups then groups[sender] else []) + [inbox[i]]];
      }
    }
    assert inbox[..|inbox|] == inbox;
  }

  lemma NothingGrouped(contacts: set<string>, blocked: set<string>, inbox: Inbox)
    ensures Filter(Eligible(contacts, blocked), inbox[..0]) == [] && Grouped(map[], [])
  {
  }

  // ----------------------------------------------------------------- rows

  lemma {:induction false} OneMoreSender(messages: seq<ReceivedMessage>, done: set<string>, p: string)
    requires p !in done
    ensures |Filter(FromAny(done + {p}), messages)| == |Filter(FromAny(done), messages)| + |Filter(From(p), messages)|
  {
    if messages != [] {
      OneMoreSender(messages[1..], done, p);
    }
  }

  lemma {:induction false} TotalAppend(rows: seq<Request>, r: Request)
    ensures Total(rows + [r]) == Total(rows) + r.count
  {
    if rows == [] {
      assert [r][1..] == [];
    } else {
      TotalAppend(rows[1..], r);
      assert (rows + [r])[1..] == rows[1..] + [r];
    }
  }

  lemma {:induction false} TotalSorted(rows: seq<Request>)
    ensures Total(Sort(Newest(), rows)) == Total(rows)
  {
    if rows != [] {
      TotalSorted(rows[1..]);
      TotalInserted(rows[0], Sort(Newest(), rows[1..]));
    }
  }

  lemma {:induction false} TotalInserted(r: Request, rows: seq<Request>)
    ensures Total(InsertSorted(Newest(), r, rows)) == r.count + Total(rows)
  {
    if rows == [] || Newest()(r, rows[0]) {
      assert ([r] + rows)[1..] == rows;
    } else {
      TotalInserted(r, rows[1..]);
    }
  }

  /** One row per sender handled so far. */
  ghost predicate RowsFor(text: Preview, messages: seq<ReceivedMessage>, done: set<string>, rows: seq<Request>) {
    && OneRowEach(rows)
    && (forall r :: r in rows ==> r.peerId in done && Summarises(text, messages, r))
    && (forall p :: p in done ==> exists r :: r in rows && r.peerId == p)
    && Total(rows) == |Filter(FromAny(done), messages)|
  }

  lemma RowStep(text: Preview, messages: seq<ReceivedMessage>, done: set<string>, rows: seq<Request>, p: string)
    requires RowsFor(text, messages, done, rows) && p !in done && Filter(From(p), messages) != []
    ensures RowsFor(text, messages, done + {p}, rows + [Row(text, p, Filter(From(p), messages))])
  {
    hide Filter, Total;
    var r := Row(text, p, Filter(From(p), messages));
    OneMoreSender(messages, done, p);
    TotalAppend(rows, r);
    assert Summarises(text, messages, r);
    assert r in rows + [r];
    forall k | k in done + {p}
      ensures exists t :: t in rows + [r] && t.peerId == k
    {
      if k != p {
        var t :| t in rows && t.peerId == k;
        assert t in rows + [r];
      }
    }
  }

  lemma RowsDone(
    text: Preview, messages: seq<ReceivedMessage>, groups: map<string, seq<ReceivedMessage>>, rows: seq<Request>)
    requires Grouped(groups, messages) && RowsFor(text, messages, groups.Keys, rows)
    ensures PendingView(text, messages, Sort(Newest(), rows))
  {
    hide Total, Grouped, Row;
    var sorted := Sort(Newest(), rows);
    forall m | m in messages
      ensures m.senderId in groups
    {
      SenderIsGrouped(groups, messages, m);
    }
    FilterAll(FromAny(groups.Keys), messages);
    TotalSorted(rows);
    SortIsSorted(Newest(), rows);
    forall r
      ensures r in sorted <==> r in rows
    {
      SortMember(Newest(), rows, r);
    }
    SortKeepsOneEach(rows);
  }

  lemma SenderIsGrouped(groups: map<string, seq<ReceivedMessage>>, messages: seq<ReceivedMessage>, m: ReceivedMessage)
    requires Grouped(groups, messages) && m in messages
    ensures m.senderId in groups
  {
    FilterMember(From(m.senderId), messages, m);
  }

  lemma {:induction false} InsertKeepsOneEach(r: Request, rows: seq<Request>)
    requires OneRowEach(rows) && forall t :: t in rows ==> t.peerId != r.peerId
    ensures OneRowEach(InsertSorted(Newest(), r, rows))
    ensures forall t :: t in InsertSorted(Newest(), r, rows) <==> t == r || t in rows
  {
    if rows != [] && !Newest()(r, rows[0]) {
      InsertKeepsOneEach(r, rows[1..]);
      assert rows == [rows[0]] + rows[1..];
      var rest := InsertSorted(Newest(), r, rows[1..]);
      forall j | 0 <= j < |rest|
        ensures rest[j].peerId != rows[0].peerId
      {
        assert rest[j] in rest;
      }
      assert OneRowEach([rows[0]] + rest);
    }
  }

  lemma {:induction false} SortKeepsOneEach(rows: seq<Request>)
    requires OneRowEach(rows)
    ensures OneRowEach(Sort(Newest(), rows))
  {
    if rows != [] {
      SortKeepsOneEach(rows[1..]);
      forall t | t in Sort(Newest(), rows[1..])
        ensures t.peerId != rows[0].peerId
      {
        SortMember(Newest(), rows[1..], t);
      }
      InsertKeepsOneEach(rows[0], Sort(Newest(), rows[1..]));
    }
  }

  class RequestInbox {
    var inbox: Inbox
    var contacts: map<string, string>
    var blocked: set<string>

    constructor ()
      ensures inbox == [] && contacts == map[] && blocked == {}
    {
      inbox := [];
      contacts := map[];
      blocked := {};
    }

    method GetPendingMessageRequests(text: Preview) returns (rows: seq<Request>)
      ensures PendingView(text, Filter(Eligible(contacts.Keys, blocked), inbox), rows)
      ensures InboxView(text, inbox, contacts.Keys, blocked, rows)
    {
      hide InboxView, RowsFor, Grouped, PendingView, Filter, Sort;
      var groups := GroupBySender(inbox, contacts.Keys, blocked);
      ghost var messages := Filter(Eligible(contacts.Keys, blocked), inbox);
      var pending := groups.Keys;
      rows := [];
      NoRowsYet(text, messages, groups.Keys - pending);
      while pending != {}
        invariant pending <= groups.Keys && RowsFor(text, messages, groups.Keys - pending, rows)
        decreases pending
      {
        var p :| p in pending;
        GroupOf(groups, messages, p);
        RowStep(text, messages, groups.Keys - pending, rows, p);
        rows := rows + [Row(text, p, groups[p])];
        assert groups.Keys - pending + {p} == groups.Keys - (pending - {p});
        pending := pending - {p};
      }
      assert groups.Keys - pending == groups.Keys;
      RowsDone(text, messages, groups, rows);
      rows := Sort(Newest(), rows);
      ViewOfInbox(text, inbox, contacts.Keys, blocked, rows);
    }

    /** The key is the first message's; if that one carries none, later ones are not consulted. */
    method AcceptMessageRequest(peer: string) returns (ok: bool)
      modifies this`contacts
      ensures ok <==> Filter(From(peer), inbox) != [] && Filter(From(peer), inbox)[0].senderPublicKeyHex.Some?
      ensures ok ==> contacts == old(contacts)[peer := Filter(From(peer), inbox)[0].senderPublicKeyHex.value]
      ensures !ok ==> contacts == old(contacts)
    {
      var i := 0;
      while i < |inbox| && inbox[i].senderId != peer
        invariant 0 <= i <= |inbox| && Filter(From(peer), inbox) == Filter(From(peer), inbox[i..])
      {
        assert inbox[i..][1..] == inbox[i + 1..];
        i := i + 1;
      }
      if i < |inbox| && inbox[i].senderPublicKeyHex.Some? {
        contacts := contacts[peer := inbox[i].senderPublicKeyHex.value];
        return true;
      }
      return false;
    }

    method RejectMessageRequest(peer: string)
      modifies this`blocked
      ensures blocked == old(blocked) + {peer}
    {
      blocked := blocked + {peer};
    }
  }

  lemma NoRowsYet(text: Preview, messages: seq<ReceivedMessage>, done: set<string>)
    requires done == {}
    ensures RowsFor(text, messages, done, [])
  {
    FilterNone(FromAny(done), messages);
  }

  lemma GroupOf(groups: map<string, seq<ReceivedMessage>>, messages: seq<ReceivedMessage>, p: string)
    requires Grouped(groups, messages) && p in groups
    ensures groups[p] == Filter(From(p), messages) && groups[p] != []
  {
  }
}
