/**
 The three-message reconciliation of two drift stores (core/src/drift/sync.rs):
 offer, response, completion. Envelope serialization is taken as lossless.
 */
module DriftSync {
  import opened Sequences
  import opened Sketch
  import opened SketchDecode
  import opened SketchWire
  import opened SketchTwins
  import opened MeshStore

  datatype Phase = Ready | AwaitingResponse | ProcessingResponse | Complete

  datatype SyncMessage =
    | SyncOffer(sketch: Bits, messageCount: nat)
    | SyncResponse(sketch: Bits, messageCount: nat, missing: seq<StoredEnvelope>)
    | SyncComplete(missing: seq<StoredEnvelope>)

  /** Cells of the sketch an initiator with `m` messages offers. */
  function OfferCells(m: nat): nat {
    Max(Max(m * 4 + 8, 1), 1) * CELLS_PER_DIFF
  }

  const MAX_OFFERED: nat := 5459

  ghost function TableFor(h: Hash, n: nat, ids: set<Key>): (t: Table)
    requires n > 0
    ensures |t| == n
  {
    seq(n, c requires 0 <= c < n => Content(h, n, ids, ids, c))
  }

  lemma TableForHolds(h: Hash, n: nat, ids: set<Key>)
    requires n > 0
    ensures Holds(h, TableFor(h, n, ids), ids, ids)
  {
  }

  lemma TableForUnique(h: Hash, t: Table, ids: set<Key>)
    requires Holds(h, t, ids, ids)
    ensures t == TableFor(h, |t|, ids)
  {
  }

  /** The sketch of a store does not depend on the order in which its ids come out of the hash map. */
  method BuildSketch(h: Hash, n: nat, ids: set<Key>) returns (t: Table)
    requires n > 0
    ensures t == TableFor(h, n, ids)
  {
    t := EmptyTable(n);
    EmptyHolds(h, n, ids);
    var pending := ids;
    while pending != {}
      invariant |t| == n && pending <= ids && Holds(h, t, ids, ids - pending)
      decreases pending
    {
      var key :| key in pending;
      InsertHolds(h, t, ids, ids - pending, key);
      t := ToggleKey(h, t, key, 1);
      assert ids - pending + {key} == ids - (pending - {key});
      pending := pending - {key};
    }
    assert ids - {} == ids;
    TableForUnique(h, t, ids);
  }

  /** The envelopes a store holds for `ids`. */
  function EnvelopesFor(store: Envelopes, ids: seq<Key>): seq<StoredEnvelope> {
    if ids == [] then []
    else if ids[0] in store then [store[ids[0]]] + EnvelopesFor(store, ids[1..])
    else EnvelopesFor(store, ids[1..])
  }

  lemma EnvelopesForIds(store: Envelopes, ids: seq<Key>)
    requires forall k :: k in ids ==> k in store
    ensures |EnvelopesFor(store, ids)| == |ids|
    ensures forall i :: 0 <= i < |ids| ==> EnvelopesFor(store, ids)[i] == store[ids[i]]
  {
  }

  /** What a holder of `ids` decodes from a peer's sketch. */
  ghost function DecodeAgainst(h: Hash, ids: set<Key>, peer: Table): Decoded
    requires |peer| > 0
  {
    var diff := Minus(TableFor(h, |peer|, ids), peer);
    Peel(h, diff, MaxIterations(diff))
  }

  ghost function OfferFor(h: Hash, store: Envelopes): Option<SyncMessage> {
    match ToBytes(TableFor(h, OfferCells(|store|), store.Keys))
    case None => None
    case Some(bytes) => Some(SyncOffer(bytes, |store|))
  }

  ghost function ResponseFor(h: Hash, store: Envelopes, sketch: Bits): Option<SyncMessage> {
    match FromBytes(sketch)
    case None => None
    case Some(peer) =>
      if |peer| == 0 then None
      else
        match (DecodeAgainst(h, store.Keys, peer), ToBytes(TableFor(h, |peer|, store.Keys)))
        case (Differ(mine, theirs), Some(bytes)) => Some(SyncResponse(bytes, |store|, EnvelopesFor(store, mine)))
        case _ => None
  }

  /** The initiator decodes with the sketch it saved, whatever its store has become. */
  ghost function CompletionFrom(h: Hash, ours: Option<Table>, store: Envelopes, sketch: Bits): Option<SyncMessage> {
    if FromBytes(sketch).None? || ours.None? || |FromBytes(sketch).value| != |ours.value| then None
    else
      var diff := Minus(ours.value, FromBytes(sketch).value);
      match Peel(h, diff, MaxIterations(diff))
      case Differ(weHave, theyHave) => Some(SyncComplete(EnvelopesFor(store, weHave)))
      case _ => None
  }

  ghost function CompletionFor(h: Hash, store: Envelopes, sketch: Bits): Option<SyncMessage> {
    CompletionFrom(h, Some(TableFor(h, OfferCells(|store|), store.Keys)), store, sketch)
  }

  /** An offer can be written for up to 5459 messages, and is read as 24 cells and 12 for each. */
  lemma OfferOnTheWire(h: Hash, store: Envelopes)
    ensures OfferCells(|store|) == 12 * |store| + 24
    ensures var bytes := ToBytes(TableFor(h, OfferCells(|store|), store.Keys));
            && (bytes.Some? <==> |store| <= MAX_OFFERED)
            && (bytes.Some? ==>
                  FromBytes(bytes.value).Some? && |FromBytes(bytes.value).value| == 12 * |store| + 24)
  {
    WireRoundTrip(TableFor(h, OfferCells(|store|), store.Keys));
    hide ToBytes, FromBytes;
  }

  class SyncSession {
    var phase: Phase
    var ourSketch: Option<Table>
    var peerMissing: seq<Key>
    var ourMissing: seq<Key>

    constructor ()
      ensures phase == Ready && ourSketch == None && peerMissing == [] && ourMissing == []
    {
      phase := Ready;
      ourSketch := None;
      peerMissing, ourMissing := [], [];
    }

    /** An offer is made exactly when the session is fresh and the store holds at most 5459 messages. */
    method Initiate(h: Hash, store: Envelopes) returns (r: Option<SyncMessage>)
      modifies this
      ensures r == if old(phase) == Ready then OfferFor(h, store) else None
      ensures r.Some? <==> old(phase) == Ready && |store| <= MAX_OFFERED
      ensures r.Some? ==>
                phase == AwaitingResponse && ourSketch == Some(TableFor(h, OfferCells(|store|), store.Keys))
      ensures r.Some? ==>
                && r.value.SyncOffer? && r.value.messageCount == |store|
                && FromBytes(r.value.sketch).Some? && |FromBytes(r.value.sketch).value| == 12 * |store| + 24
      ensures r.None? ==> phase == old(phase) && ourSketch == old(ourSketch)
      ensures peerMissing == old(peerMissing) && ourMissing == old(ourMissing)
    {
      if phase != Ready {
        return None;
      }
      hide ToBytes, FromBytes, TableFor;
      OfferOnTheWire(h, store);
      var t := BuildSketch(h, OfferCells(|store|), store.Keys);
      var bytes := ToBytes(t);
      if bytes.None? {
        return None;
      }
      ourSketch := Some(t);
      phase := AwaitingResponse;
      return Some(SyncOffer(bytes.value, |store|));
    }

    method Respond(h: Hash, store: Envelopes, offer: SyncMessage) returns (r: Option<SyncMessage>)
      modifies this
      ensures r == if old(phase) == Ready && offer.SyncOffer? then ResponseFor(h, store, offer.sketch) else None
      ensures r.Some? ==>
                && phase == ProcessingResponse
                && DecodeAgainst(h, store.Keys, FromBytes(offer.sketch).value) == Differ(peerMissing, ourMissing)
      ensures r.None? ==> phase == old(phase)
    {
      if phase != Ready || !offer.SyncOffer? {
        return None;
      }
      var parsed := FromBytes(offer.sketch);
      if parsed.None? {
        return None;
      }
      var peer := parsed.value;
      var t := BuildSketch(h, Max(|peer|, 1), store.Keys);
      if |t| != |peer| {
        return None;
      }
      var decoded := Decode(h, Minus(t, peer));
      if !decoded.Differ? {
        return None;
      }
      peerMissing, ourMissing := decoded.aliceOnly, decoded.bobOnly;
      ParsedBound(offer.sketch);
      var bytes := ToBytes(t);
      ourSketch := Some(t);
      phase := ProcessingResponse;
      return Some(SyncResponse(bytes.value, |store|, EnvelopesFor(store, peerMissing)));
    }

    /** Returns the completion message and the envelopes received in the response. */
    method CompleteSync(h: Hash, store: Envelopes, response: SyncMessage)
      returns (r: Option<SyncMessage>, received: seq<StoredEnvelope>)
      modifies this
      ensures r == if old(phase) == AwaitingResponse && response.SyncResponse?
                   then CompletionFrom(h, old(ourSketch), store, response.sketch) else None
      ensures r.Some? ==>
                && phase == Complete && received == response.missing && ourSketch == old(ourSketch)
                && var diff := Minus(old(ourSketch).value, FromBytes(response.sketch).value);
                   Peel(h, diff, MaxIterations(diff)) == Differ(peerMissing, ourMissing)
      ensures r.None? ==>
                && received == [] && phase == old(phase) && ourSketch == old(ourSketch)
                && peerMissing == old(peerMissing) && ourMissing == old(ourMissing)
    {
      received := [];
      if phase != AwaitingResponse || !response.SyncResponse? {
        return None, [];
      }
      var parsed := FromBytes(response.sketch);
      if parsed.None? || ourSketch.None? || |parsed.value| != |ourSketch.value| {
        return None, [];
      }
      var decoded := Decode(h, Minus(ourSketch.value, parsed.value));
      if !decoded.Differ? {
        return None, [];
      }
      peerMissing, ourMissing := decoded.aliceOnly, decoded.bobOnly;
      phase := Complete;
      return Some(SyncComplete(EnvelopesFor(store, peerMissing))), response.missing;
    }
  }

  /**
   An offer has room for a difference of up to twelve times its store and 23 more: some hash makes
   a difference peelable in it exactly when it is no larger.
   */
  lemma OfferHasRoom(h: Hash, store: Envelopes, d: set<Key>)
    requires OfferFor(h, store).Some?
    ensures var cells := FromBytes(OfferFor(h, store).value.sketch);
            && cells.Some? && |cells.value| > 0
            && ((exists g: Hash :: Peelable(g, |cells.value|, d)) <==> |d| <= 12 * |store| + 23)
  {
    hide Peelable, ToBytes, FromBytes, TableFor;
    OfferOnTheWire(h, store);
    CapacityExactlyWhen(12 * |store| + 24, d);
  }

  lemma ParsedBound(b: Bits)
    requires FromBytes(b).Some?
    ensures |FromBytes(b).value| <= 65535
  {
    WidthBounds();
    ValueBound(b[..16]);
  }

  // ------------------------------------------------------------ convergence

  /** A decode of the difference of two id sets only ever peels cells that are hit once. */
  ghost predicate DecodesGenuinely(h: Hash, n: nat, mine: set<Key>, theirs: set<Key>)
    requires n > 0
  {
    var diff := Minus(TableFor(h, n, mine), TableFor(h, n, theirs));
    PeelsGenuinely(h, diff, Differences(mine, theirs), MaxIterations(diff))
  }

  /** The conditions, all determined before the exchange, under which the sketches carry the difference. */
  ghost predicate SketchesFit(h: Hash, a: Envelopes, b: Envelopes) {
    var n := OfferCells(|a|);
    && |a| <= MAX_OFFERED
    && ByteCounts(TableFor(h, n, a.Keys)) && ByteCounts(TableFor(h, n, b.Keys))
    && DecodesGenuinely(h, n, a.Keys, b.Keys)
  }

  /** It is enough that no part of the difference has a cell that only looks pure. */
  lemma HonestSketchesFit(h: Hash, a: Envelopes, b: Envelopes)
    requires |a| <= MAX_OFFERED
    requires ByteCounts(TableFor(h, OfferCells(|a|), a.Keys)) && ByteCounts(TableFor(h, OfferCells(|a|), b.Keys))
    requires Honest(h, OfferCells(|a|), a.Keys, Differences(a.Keys, b.Keys))
    ensures SketchesFit(h, a, b)
  {
    hide ByteCounts, Honest, PeelsGenuinely, Minus;
    var n := OfferCells(|a|);
    var diff := Minus(TableFor(h, n, a.Keys), TableFor(h, n, b.Keys));
    DifferenceHolds(h, n, a.Keys, b.Keys);
    HonestPeelsGenuinely(h, diff, a.Keys, Differences(a.Keys, b.Keys), MaxIterations(diff));
  }

  lemma DifferenceHolds(h: Hash, n: nat, mine: set<Key>, theirs: set<Key>)
    requires n > 0
    ensures Holds(h, Minus(TableFor(h, n, mine), TableFor(h, n, theirs)), mine, Differences(mine, theirs))
  {
    TableForHolds(h, n, mine);
    TableForHolds(h, n, theirs);
    MinusHolds(h, TableFor(h, n, mine), TableFor(h, n, theirs), mine, theirs);
  }

  /** The ids of the difference that peeling cannot reach. */
  ghost function Missed(h: Hash, a: Envelopes, b: Envelopes): set<Key> {
    Tangle(h, OfferCells(|a|), Differences(a.Keys, b.Keys))
  }

  /** What peeling cannot reach is also invisible in the counts. */
  ghost predicate Unnoticed(h: Hash, a: Envelopes, b: Envelopes) {
    Balanced(h, OfferCells(|a|), a.Keys, Missed(h, a, b))
  }

  /** Seen from the other side a difference is the same, with all signs turned. */
  lemma SidesFlip(h: Hash, n: nat, a: set<Key>, b: set<Key>, s: set<Key>, c: nat)
    requires n > 0 && s <= Differences(a, b)
    ensures Differences(b, a) == Differences(a, b)
    ensures Content(h, n, b, s, c) == Neg(Content(h, n, a, s, c))
  {
    assert Differences(b, a) == Differences(a, b);
    ContentNegated(h, n, b, a, s, c);
  }

  ghost predicate Opposite(t: Table, u: Table) {
    |t| == |u| && forall c :: 0 <= c < |t| ==> u[c] == Neg(t[c])
  }

  lemma {:induction false} FirstPureOpposite(t: Table, u: Table, i: nat)
    requires Opposite(t, u) && i <= |t|
    ensures FirstPureFrom(t, i) == FirstPureFrom(u, i)
    decreases |t| - i
  {
    if i < |t| {
      FirstPureOpposite(t, u, i + 1);
    }
  }

  lemma ToggleOpposite(h: Hash, t: Table, u: Table, k: Key, sign: int, c: nat)
    requires Opposite(t, u) && c < |t|
    ensures Toggle(h, u, k, -sign)[c] == Neg(Toggle(h, t, k, sign)[c])
  {
    hide Toggle, Contribution, Hits, Plus;
    var hits := Hits(h, |t|, k, c);
    ToggleCell(h, t, k, sign, c);
    ToggleCell(h, u, k, -sign, c);
    ContributionNegated(k, hits, sign);
    NegPlus(t[c], Contribution(k, hits, sign));
  }

  lemma NegEmpty()
    ensures Neg(EMPTY_CELL) == EMPTY_CELL
  {
  }

  lemma UpdateOpposite(t: Table, u: Table, idx: nat, cell: Cell)
    requires Opposite(t, u) && idx < |t| && Neg(cell) == cell
    ensures Opposite(t[idx := cell], u[idx := cell])
  {
    hide Neg;
  }

  lemma TogglesOpposite(h: Hash, t: Table, u: Table, k: Key, sign: int)
    requires Opposite(t, u) && |t| > 0
    ensures Opposite(Toggle(h, t, k, sign), Toggle(h, u, k, -sign))
  {
    hide Toggle, Neg;
    forall c | 0 <= c < |t|
      ensures Toggle(h, u, k, -sign)[c] == Neg(Toggle(h, t, k, sign)[c])
    {
      ToggleOpposite(h, t, u, k, sign, c);
    }
  }

  lemma OppositeCell(t: Table, u: Table, idx: nat)
    requires Opposite(t, u) && idx < |t|
    ensures u[idx].keySum == t[idx].keySum && u[idx].count == -t[idx].count
  {
  }

  lemma PeelOpposite(h: Hash, t: Table, u: Table, idx: nat)
    requires Opposite(t, u) && idx < |t| && idx < |u|
    ensures Opposite(PeelCell(h, t, idx), PeelCell(h, u, idx))
  {
    hide Toggle, Neg, Opposite;
    OppositeCell(t, u, idx);
    var k, sign := t[idx].keySum, -t[idx].count;
    assert -u[idx].count == -sign;
    TogglesOpposite(h, t, u, k, sign);
    NegEmpty();
    UpdateOpposite(Toggle(h, t, k, sign), Toggle(h, u, k, -sign), idx, EMPTY_CELL);
  }

  /** Which cells are peeled does not depend on the signs. */
  lemma {:induction false} GenuineOpposite(h: Hash, t: Table, u: Table, d: set<Key>, budget: nat)
    requires Opposite(t, u) && PeelsGenuinely(h, t, d, budget)
    ensures PeelsGenuinely(h, u, d, budget)
    decreases budget
  {
    hide PeelCell, Load;
    FirstPureOpposite(t, u, 0);
    if budget > 0 && FirstPure(u).Some? {
      var idx := FirstPure(u).value;
      PeelOpposite(h, t, u, idx);
      assert u[idx].keySum == t[idx].keySum;
      GenuineOpposite(h, PeelCell(h, t, idx), PeelCell(h, u, idx), d - {t[idx].keySum}, budget - 1);
    }
  }

  lemma GenuineFlips(h: Hash, n: nat, a: set<Key>, b: set<Key>)
    requires n > 0 && DecodesGenuinely(h, n, a, b)
    ensures Differences(b, a) == Differences(a, b) && DecodesGenuinely(h, n, b, a)
  {
    hide PeelsGenuinely, Content;
    SidesFlip(h, n, a, b, {}, 0);
    var t, u := Minus(TableFor(h, n, a), TableFor(h, n, b)), Minus(TableFor(h, n, b), TableFor(h, n, a));
    forall c | 0 <= c < n
      ensures u[c] == Neg(t[c])
    {
      DifferenceHolds(h, n, a, b);
      DifferenceHolds(h, n, b, a);
      SidesFlip(h, n, a, b, Differences(a, b), c);
    }
    GenuineOpposite(h, t, u, Differences(a, b), MaxIterations(t));
  }

  lemma BalancedFlips(h: Hash, n: nat, a: set<Key>, b: set<Key>, s: set<Key>)
    requires n > 0 && s <= Differences(a, b)
    ensures Balanced(h, n, b, s) <==> Balanced(h, n, a, s)
  {
    forall c | 0 <= c < n
      ensures Content(h, n, b, s, c).count == 0 - Content(h, n, a, s, c).count
    {
      SidesFlip(h, n, a, b, s, c);
    }
  }

  /**
   Each side of an exchange learns exactly what the other lacks, outside the tangle; a tangle
   whose counts do not cancel is reported as a failure.
   */
  lemma DifferenceDecodes(h: Hash, n: nat, mine: set<Key>, theirs: set<Key>)
    requires n > 0 && DecodesGenuinely(h, n, mine, theirs)
    ensures var r, tangle := DecodeAgainst(h, mine, TableFor(h, n, theirs)), Tangle(h, n, Differences(mine, theirs));
            if Balanced(h, n, mine, tangle)
            then
              && r.Differ? && Enumerates(r.aliceOnly, mine - theirs - tangle)
              && Enumerates(r.bobOnly, theirs - mine - tangle)
            else r == Unpeelable
  {
    hide PeelsGenuinely, Balanced, Peelable, Tangle, Peel;
    var d := Differences(mine, theirs);
    DifferenceHolds(h, n, mine, theirs);
    DecodeIsExact(h, Minus(TableFor(h, n, mine), TableFor(h, n, theirs)), mine, d);
    var tangle := Tangle(h, n, d);
    assert (d - tangle) * mine == mine - theirs - tangle && d - tangle - mine == theirs - mine - tangle;
  }

  /** `missing` is exactly what `theirs` holds and `mine` lacks, each envelope once. */
  ghost predicate Supplies(missing: seq<StoredEnvelope>, mine: Envelopes, theirs: Envelopes) {
    && (forall i, j :: 0 <= i < j < |missing| ==> missing[i].messageId != missing[j].messageId)
    && (forall i :: 0 <= i < |missing| ==>
          missing[i].messageId in theirs && missing[i].messageId !in mine &&
          missing[i] == theirs[missing[i].messageId])
    && (forall id :: id in theirs && id !in mine ==> exists i :: 0 <= i < |missing| && missing[i].messageId == id)
  }

  lemma EnumerationSupplies(ids: seq<Key>, mine: Envelopes, theirs: Envelopes, lost: set<Key>)
    requires WellIndexed(theirs) && Enumerates(ids, theirs.Keys - mine.Keys - lost)
    ensures Supplies(EnvelopesFor(theirs, ids), mine, theirs - lost)
  {
    EnvelopesForIds(theirs, ids);
    var missing := EnvelopesFor(theirs, ids);
    forall i | 0 <= i < |missing|
      ensures missing[i].messageId == ids[i] && ids[i] in theirs - lost && ids[i] !in mine
    {
      assert ids[i] in ids;
    }
    forall id | id in theirs - lost && id !in mine
      ensures exists i :: 0 <= i < |missing| && missing[i].messageId == id
    {
      assert id in ids;
      var i :| 0 <= i < |ids| && ids[i] == id;
      assert missing[i].messageId == id;
    }
  }

  /** Inserting envelopes in turn, without a capacity: ids already held are left alone. */
  function AddAll(m: Envelopes, envelopes: seq<StoredEnvelope>): Envelopes {
    if envelopes == [] then m
    else
      var r, e := AddAll(m, envelopes[..|envelopes| - 1]), envelopes[|envelopes| - 1];
      if e.messageId in r then r else r[e.messageId := e]
  }

  lemma AddAllGrows(m: Envelopes, envelopes: seq<StoredEnvelope>, i: nat)
    requires i <= |envelopes|
    ensures |AddAll(m, envelopes[..i])| <= |AddAll(m, envelopes)|
  {
    if i < |envelopes| {
      var front := envelopes[..|envelopes| - 1];
      assert front[..i] == envelopes[..i];
      AddAllGrows(m, front, i);
    } else {
      assert envelopes[..i] == envelopes;
    }
  }

  lemma {:induction false} AddAllHas(m: Envelopes, envelopes: seq<StoredEnvelope>, id: Key)
    ensures id in AddAll(m, envelopes) <==> id in m || exists i :: 0 <= i < |envelopes| && envelopes[i].messageId == id
    ensures id in AddAll(m, envelopes) ==>
              if id in m then AddAll(m, envelopes)[id] == m[id]
              else
                exists i ::
                  0 <= i < |envelopes| && envelopes[i].messageId == id && envelopes[i] == AddAll(m, envelopes)[id]
  {
    if envelopes != [] {
      AddAllHas(m, envelopes[..|envelopes| - 1], id);
    }
  }

  /** Adding what the other side supplies completes the union. */
  lemma SuppliedUnion(missing: seq<StoredEnvelope>, mine: Envelopes, theirs: Envelopes)
    requires Supplies(missing, mine, theirs)
    ensures AddAll(mine, missing) == theirs + mine
  {
    var r, u := AddAll(mine, missing), theirs + mine;
    forall id
      ensures id in r <==> id in u
      ensures id in r ==> r[id] == u[id]
    {
      AddAllHas(mine, missing, id);
    }
    assert r.Keys == u.Keys;
  }

  /** Re-offered ids carry the envelope already known for them. */
  ghost predicate Consistent(m: Envelopes, envelopes: seq<StoredEnvelope>) {
    forall i :: 0 <= i < |envelopes| ==>
      var all := AddAll(m, envelopes); envelopes[i].messageId in all && all[envelopes[i].messageId] == envelopes[i]
  }

  lemma AddAllFacts(m: Envelopes, envelopes: seq<StoredEnvelope>, i: nat)
    requires WellIndexed(m) && i <= |envelopes|
    ensures WellIndexed(AddAll(m, envelopes[..i])) && SubStore(AddAll(m, envelopes[..i]), AddAll(m, envelopes))
    decreases |envelopes|
  {
    if i < |envelopes| {
      var front := envelopes[..|envelopes| - 1];
      assert front[..i] == envelopes[..i];
      AddAllFacts(m, front, i);
    } else {
      assert envelopes[..i] == envelopes;
      if envelopes != [] {
        var front := envelopes[..|envelopes| - 1];
        AddAllFacts(m, front, |front|);
        assert front[..|front|] == front;
      }
    }
  }

  /** One more insertion into a store that evicts keeps up with the store that does not. */
  lemma MergeStep(score: Score, m: Envelopes, envelopes: seq<StoredEnvelope>, i: nat, k: nat)
    requires WellIndexed(m) && i < |envelopes| && Consistent(m, envelopes)
    requires DistinctScores(score, AddAll(m, envelopes).Values)
    ensures var e, before, after := envelopes[i], AddAll(m, envelopes[..i]), AddAll(m, envelopes[..i + 1]);
            && after == before[e.messageId := e]
            && DistinctScores(score, KeptMap(score, before, k)[e.messageId := e].Values)
            && KeptMap(score, after, k) == KeptMap(score, KeptMap(score, before, k)[e.messageId := e], k)
            && (e.messageId in KeptMap(score, before, k) ==> KeptMap(score, after, k) == KeptMap(score, before, k))
  {
    hide AddAll, KeptMap;
    var e, all := envelopes[i], AddAll(m, envelopes);
    var before, after := AddAll(m, envelopes[..i]), AddAll(m, envelopes[..i + 1]);
    AddAllFacts(m, envelopes, i);
    AddAllFacts(m, envelopes, i + 1);
    AddAllNext(m, envelopes, i);
    assert e.messageId in all && all[e.messageId] == e;
    assert after == before[e.messageId := e];
    SubStoreValues(after, all);
    KeptMapFacts(score, before, k);
    InsertAbsorbs(score, before, e, k);
    assert SubStore(KeptMap(score, before, k)[e.messageId := e], all);
    SubStoreValues(KeptMap(score, before, k)[e.messageId := e], all);
  }

  lemma AddAllNext(m: Envelopes, envelopes: seq<StoredEnvelope>, i: nat)
    requires i < |envelopes|
    ensures var before, e := AddAll(m, envelopes[..i]), envelopes[i];
            AddAll(m, envelopes[..i + 1]) == if e.messageId in before then before else before[e.messageId := e]
  {
    assert envelopes[..i + 1][..i] == envelopes[..i];
  }

  /** With distinct scores the outcome is the unbounded union cut back once, however the evictions fell. */
  method MergeEnvelopes(score: Score, store: Store, envelopes: seq<StoredEnvelope>) returns (count: nat)
    requires store.Valid()
    modifies store`messages
    ensures store.Valid()
    ensures |AddAll(old(store.messages), envelopes)| <= store.maxMessages ==>
              && store.messages == AddAll(old(store.messages), envelopes)
              && count == |store.messages| - |old(store.messages)|
    ensures Consistent(old(store.messages), envelopes) &&
            DistinctScores(score, AddAll(old(store.messages), envelopes).Values) ==>
              store.messages == KeptMap(score, AddAll(old(store.messages), envelopes), store.maxMessages)
  {
    hide KeptMap, DistinctScores, Consistent;
    ghost var mine := store.messages;
    ghost var fits := |AddAll(mine, envelopes)| <= store.maxMessages;
    ghost var ranked := Consistent(mine, envelopes) && DistinctScores(score, AddAll(mine, envelopes).Values);
    NothingEvicted(score, mine, store.maxMessages);
    count := 0;
    for i := 0 to |envelopes|
      invariant store.Valid()
      invariant fits ==> store.messages == AddAll(mine, envelopes[..i]) && count == |store.messages| - |mine|
      invariant ranked ==> store.messages == KeptMap(score, AddAll(mine, envelopes[..i]), store.maxMessages)
    {
      AddAllNext(mine, envelopes, i);
      AddAllGrows(mine, envelopes, i + 1);
      if ranked {
        MergeStep(score, mine, envelopes, i, store.maxMessages);
      }
      var isNew := store.Insert(score, envelopes[i]);
      if isNew {
        count := count + 1;
      }
    }
    assert envelopes[..|envelopes|] == envelopes;
  }

  /** What a holder of `mine` sends after decoding against the sketch of `theirs`. */
  lemma ReplySupplies(h: Hash, n: nat, mine: Envelopes, theirs: Envelopes)
    requires n > 0 && WellIndexed(mine) && DecodesGenuinely(h, n, mine.Keys, theirs.Keys)
    ensures var r := DecodeAgainst(h, mine.Keys, TableFor(h, n, theirs.Keys));
            var tangle := Tangle(h, n, Differences(mine.Keys, theirs.Keys));
            && (r.Differ? <==> Balanced(h, n, mine.Keys, tangle))
            && (r.Differ? ==> Supplies(EnvelopesFor(mine, r.aliceOnly), theirs, mine - tangle))
  {
    hide DecodesGenuinely, Balanced, Tangle, DecodeAgainst, Supplies;
    DifferenceDecodes(h, n, mine.Keys, theirs.Keys);
    var r := DecodeAgainst(h, mine.Keys, TableFor(h, n, theirs.Keys));
    if r.Differ? {
      EnumerationSupplies(r.aliceOnly, theirs, mine, Tangle(h, n, Differences(mine.Keys, theirs.Keys)));
    }
  }

  lemma SketchArrives(h: Hash, n: nat, ids: set<Key>)
    requires 0 < n <= 65535 && ByteCounts(TableFor(h, n, ids))
    ensures ToBytes(TableFor(h, n, ids)).Some?
    ensures FromBytes(ToBytes(TableFor(h, n, ids)).value) == Some(TableFor(h, n, ids))
  {
    WireRoundTrip(TableFor(h, n, ids));
  }

  datatype Outcome = Failed | Exchanged(forA: seq<StoredEnvelope>, forB: seq<StoredEnvelope>)

  /** The three messages chained: what each side should then insert, or a failure. */
  ghost function ExchangeOf(h: Hash, a: Envelopes, b: Envelopes): Outcome {
    match OfferFor(h, a)
    case None => Failed
    case Some(offer) =>
      match ResponseFor(h, b, offer.sketch)
      case None => Failed
      case Some(response) =>
        match CompletionFor(h, a, response.sketch)
        case None => Failed
        case Some(completion) => Exchanged(response.missing, completion.missing)
  }

  lemma ResponseArrives(h: Hash, n: nat, a: Envelopes, b: Envelopes, sketch: Bits)
    requires 0 < n <= 65535 && WellIndexed(b) && ByteCounts(TableFor(h, n, b.Keys))
    requires DecodesGenuinely(h, n, b.Keys, a.Keys)
    requires FromBytes(sketch) == Some(TableFor(h, n, a.Keys))
    ensures var tangle := Tangle(h, n, Differences(b.Keys, a.Keys));
            match ResponseFor(h, b, sketch)
            case None => !Balanced(h, n, b.Keys, tangle)
            case Some(m) =>
              && Balanced(h, n, b.Keys, tangle) && m.SyncResponse?
              && Supplies(m.missing, a, b - tangle) && FromBytes(m.sketch) == Some(TableFor(h, n, b.Keys))
  {
    hide Balanced, Tangle, DecodesGenuinely, Supplies, Peel, Minus, TableFor, ByteCounts;
    hide FromBytes, ToBytes, EnvelopesFor;
    ReplySupplies(h, n, b, a);
    SketchArrives(h, n, b.Keys);
  }

  lemma CompletionArrives(h: Hash, a: Envelopes, b: Envelopes, sketch: Bits)
    requires WellIndexed(a)
    requires DecodesGenuinely(h, OfferCells(|a|), a.Keys, b.Keys)
    requires FromBytes(sketch) == Some(TableFor(h, OfferCells(|a|), b.Keys))
    ensures match CompletionFor(h, a, sketch)
            case None => !Unnoticed(h, a, b)
            case Some(m) => Unnoticed(h, a, b) && m.SyncComplete? && Supplies(m.missing, b, a - Missed(h, a, b))
  {
    hide Balanced, Tangle, DecodesGenuinely, Supplies, Peel, TableFor, FromBytes, EnvelopesFor;
    ReplySupplies(h, OfferCells(|a|), a, b);
  }

  /**
   When the sketches fit, the exchange goes through exactly if the counts of the unreachable part
   cancel, and then each side is sent what it lacks except that part: everything, exactly when the
   difference is peelable.
   */
  lemma ExchangeReconciles(h: Hash, a: Envelopes, b: Envelopes)
    requires WellIndexed(a) && WellIndexed(b) && SketchesFit(h, a, b)
    ensures ExchangeOf(h, a, b).Exchanged? <==> Unnoticed(h, a, b)
    ensures ExchangeOf(h, a, b).Exchanged? ==>
              && Supplies(ExchangeOf(h, a, b).forA, a, b - Missed(h, a, b))
              && Supplies(ExchangeOf(h, a, b).forB, b, a - Missed(h, a, b))
    ensures Missed(h, a, b) == {} <==> Peelable(h, OfferCells(|a|), Differences(a.Keys, b.Keys))
  {
    hide Peelable, Balanced, Tangle, DecodesGenuinely, Supplies, Peel, Minus, TableFor, ByteCounts;
    hide FromBytes, ToBytes, EnvelopesFor, CompletionFrom;
    var n := OfferCells(|a|);
    GenuineFlips(h, n, a.Keys, b.Keys);
    TangleInside(h, n, Differences(a.Keys, b.Keys));
    BalancedFlips(h, n, a.Keys, b.Keys, Missed(h, a, b));
    PeelableMeansNoTangle(h, n, Differences(a.Keys, b.Keys));
    SketchArrives(h, n, a.Keys);
    var sketch := OfferFor(h, a).value.sketch;
    ResponseArrives(h, n, a, b, sketch);
    var response := ResponseFor(h, b, sketch);
    if response.Some? {
      CompletionArrives(h, a, b, response.value.sketch);
    }
  }

  method Exchange(h: Hash, a: Envelopes, b: Envelopes) returns (r: Outcome)
    ensures r == ExchangeOf(h, a, b)
  {
    hide Peel, Minus, TableFor, FromBytes, ToBytes, EnvelopesFor, DecodeAgainst;
    var initiator := new SyncSession();
    var responder := new SyncSession();
    var offer := initiator.Initiate(h, a);
    if offer.None? {
      return Failed;
    }
    var response := responder.Respond(h, b, offer.value);
    if response.None? {
      return Failed;
    }
    var completion, received := initiator.CompleteSync(h, a, response.value);
    if completion.None? {
      return Failed;
    }
    return Exchanged(received, completion.value.missing);
  }

  // ------------------------------------------------------------- soundness

  lemma {:induction false} EnvelopesForHeld(store: Envelopes, ids: seq<Key>, e: StoredEnvelope)
    requires WellIndexed(store) && e in EnvelopesFor(store, ids)
    ensures e.messageId in store && store[e.messageId] == e
  {
    if ids != [] && e in EnvelopesFor(store, ids[1..]) {
      EnvelopesForHeld(store, ids[1..], e);
    }
  }

  /** Every envelope sent is one the sender holds, whatever the sketches decode to. */
  ghost predicate Genuine(sent: seq<StoredEnvelope>, store: Envelopes) {
    forall e :: e in sent ==> e.messageId in store && store[e.messageId] == e
  }

  lemma RepliesAreGenuine(store: Envelopes, ids: seq<Key>)
    requires WellIndexed(store)
    ensures Genuine(EnvelopesFor(store, ids), store)
  {
    forall e | e in EnvelopesFor(store, ids)
      ensures e.messageId in store && store[e.messageId] == e
    {
      EnvelopesForHeld(store, ids, e);
    }
  }

  /** `m` is `mine` with nothing lost, and some of what `theirs` holds. */
  ghost predicate Grown(mine: Envelopes, m: Envelopes, theirs: Envelopes) {
    SubStore(mine, m) && SubStore(m, theirs + mine)
  }

  /** Taking in genuine envelopes loses nothing and invents nothing. */
  lemma GenuineGrowth(sent: seq<StoredEnvelope>, mine: Envelopes, theirs: Envelopes)
    requires Genuine(sent, theirs)
    ensures SubStore(mine, AddAll(mine, sent)) && SubStore(AddAll(mine, sent), theirs + mine)
  {
    forall id
      ensures id in mine ==> id in AddAll(mine, sent) && AddAll(mine, sent)[id] == mine[id]
      ensures id in AddAll(mine, sent) ==> id in theirs + mine && AddAll(mine, sent)[id] == (theirs + mine)[id]
    {
      AddAllHas(mine, sent, id);
    }
  }

  lemma ResponseIsGenuine(h: Hash, store: Envelopes, sketch: Bits)
    requires WellIndexed(store) && ResponseFor(h, store, sketch).Some?
    ensures ResponseFor(h, store, sketch).value.SyncResponse?
    ensures Genuine(ResponseFor(h, store, sketch).value.missing, store)
  {
    hide EnvelopesFor, Genuine, Peel, TableFor, ToBytes, FromBytes;
    var peer := FromBytes(sketch).value;
    RepliesAreGenuine(store, DecodeAgainst(h, store.Keys, peer).aliceOnly);
  }

  lemma CompletionIsGenuine(h: Hash, store: Envelopes, sketch: Bits)
    requires WellIndexed(store) && CompletionFor(h, store, sketch).Some?
    ensures CompletionFor(h, store, sketch).value.SyncComplete?
    ensures Genuine(CompletionFor(h, store, sketch).value.missing, store)
  {
    hide EnvelopesFor, Genuine, Peel, TableFor, ToBytes, FromBytes, Minus;
    var diff := Minus(TableFor(h, OfferCells(|store|), store.Keys), FromBytes(sketch).value);
    RepliesAreGenuine(store, Peel(h, diff, MaxIterations(diff)).aliceOnly);
  }

  /** For every hash and every two stores, an exchange hands over only envelopes the other side holds. */
  lemma ExchangeIsSound(h: Hash, a: Envelopes, b: Envelopes)
    requires WellIndexed(a) && WellIndexed(b) && ExchangeOf(h, a, b).Exchanged?
    ensures Genuine(ExchangeOf(h, a, b).forA, b) && Genuine(ExchangeOf(h, a, b).forB, a)
  {
    hide Genuine, ResponseFor, CompletionFor;
    var sketch := OfferFor(h, a).value.sketch;
    ResponseIsGenuine(h, b, sketch);
    CompletionIsGenuine(h, a, ResponseFor(h, b, sketch).value.sketch);
  }

  // ---------------------------------------------------------- a whole sync

  lemma GenuineConsistent(sent: seq<StoredEnvelope>, mine: Envelopes, theirs: Envelopes)
    requires Genuine(sent, theirs) && Agree(mine, theirs)
    ensures Consistent(mine, sent)
  {
    forall i | 0 <= i < |sent|
      ensures var all := AddAll(mine, sent); sent[i].messageId in all && all[sent[i].messageId] == sent[i]
    {
      assert sent[i] in sent;
      AddAllHas(mine, sent, sent[i].messageId);
      GenuineGrowth(sent, mine, theirs);
    }
  }

  /**
   A whole exchange. Whatever the hash does, with room on both sides no message is lost and none
   invented. When the sketches fit, it goes through exactly if the unreachable part is unnoticed, and
   both stores end with the union less that part, cut back to their capacities.
   */
  method Synchronize(h: Hash, score: Score, a: Store, b: Store) returns (ok: bool)
    requires a.Valid() && b.Valid() && a != b
    modifies a`messages, b`messages
    ensures a.Valid() && b.Valid()
    ensures !ok ==> a.messages == old(a.messages) && b.messages == old(b.messages)
    ensures |old(a.messages) + old(b.messages)| <= Min(a.maxMessages, b.maxMessages) ==>
              && Grown(old(a.messages), a.messages, old(b.messages))
              && Grown(old(b.messages), b.messages, old(a.messages))
    ensures SketchesFit(h, old(a.messages), old(b.messages)) ==>
              (ok <==> Unnoticed(h, old(a.messages), old(b.messages)))
    ensures SketchesFit(h, old(a.messages), old(b.messages)) && ok ==>
              var missed := Missed(h, old(a.messages), old(b.messages));
              var a0, b0 := old(a.messages), old(b.messages);
              && Settled(score, a.messages, (b0 - missed) + a0, b0, a.maxMessages)
              && Settled(score, b.messages, (a0 - missed) + b0, a0, b.maxMessages)
  {
    hide SketchesFit, AddAll, ExchangeOf, Unnoticed, Missed, Settled, Consistent;
    hide KeptMap, Genuine, Grown, DistinctScores;
    ghost var a0, b0 := a.messages, b.messages;
    var r := Exchange(h, a.messages, b.messages);
    ok := r.Exchanged?;
    if SketchesFit(h, a0, b0) {
      ExchangedUnion(h, a0, b0);
    }
    NothingArrives(a0, b0);
    NothingArrives(b0, a0);
    if ok {
      ExchangeIsSound(h, a0, b0);
      Arrival(score, r.forA, a0, b0);
      Arrival(score, r.forB, b0, a0);
      var countA := MergeEnvelopes(score, a, r.forA);
      var countB := MergeEnvelopes(score, b, r.forB);
      SettledAs(score, r.forA, a0, b0, a.messages, a.maxMessages);
      SettledAs(score, r.forB, b0, a0, b.messages, b.maxMessages);
    }
  }

  /**
   A store that should hold `target`: it does if that fits, and keeps its top scores if it does not,
   provided scores are distinct and shared ids agree with the other side's.
   */
  ghost predicate Settled(score: Score, m: Envelopes, target: Envelopes, other: Envelopes, max: nat) {
    && (|target| <= max ==> m == target)
    && (DistinctScores(score, target.Values) && Agree(target, other) ==> m == KeptMap(score, target, max))
  }

  lemma NothingArrives(mine: Envelopes, theirs: Envelopes)
    ensures Grown(mine, mine, theirs)
  {
  }

  lemma Arrival(score: Score, sent: seq<StoredEnvelope>, mine: Envelopes, theirs: Envelopes)
    requires Genuine(sent, theirs)
    ensures Grown(mine, AddAll(mine, sent), theirs)
    ensures |AddAll(mine, sent)| <= |mine + theirs| == |theirs + mine|
  {
    GenuineGrowth(sent, mine, theirs);
    KeySubsetSize(AddAll(mine, sent).Keys, (theirs + mine).Keys);
    UnionsAgreeExactlyWhen(mine, theirs);
  }

  lemma SettledAs(score: Score, sent: seq<StoredEnvelope>, mine: Envelopes, theirs: Envelopes, m: Envelopes, max: nat)
    requires Genuine(sent, theirs)
    requires |AddAll(mine, sent)| <= max ==> m == AddAll(mine, sent)
    requires Consistent(mine, sent) && DistinctScores(score, AddAll(mine, sent).Values) ==>
               m == KeptMap(score, AddAll(mine, sent), max)
    ensures Settled(score, m, AddAll(mine, sent), theirs, max)
  {
    hide KeptMap, Consistent;
    GenuineGrowth(sent, mine, theirs);
    if Agree(AddAll(mine, sent), theirs) {
      assert Agree(mine, theirs);
      GenuineConsistent(sent, mine, theirs);
    }
  }

  /** After the exchanged envelopes are in, each side holds the union less what was missed. */
  lemma ExchangedUnion(h: Hash, a: Envelopes, b: Envelopes)
    requires WellIndexed(a) && WellIndexed(b) && SketchesFit(h, a, b)
    ensures ExchangeOf(h, a, b).Exchanged? <==> Unnoticed(h, a, b)
    ensures ExchangeOf(h, a, b).Exchanged? ==>
              && AddAll(a, ExchangeOf(h, a, b).forA) == (b - Missed(h, a, b)) + a
              && AddAll(b, ExchangeOf(h, a, b).forB) == (a - Missed(h, a, b)) + b
    ensures ((b - Missed(h, a, b)) + a).Keys == ((a - Missed(h, a, b)) + b).Keys <==> Missed(h, a, b) == {}
  {
    hide SketchesFit, ExchangeOf, Unnoticed, Supplies, AddAll;
    ExchangeReconciles(h, a, b);
    var r, missed := ExchangeOf(h, a, b), Missed(h, a, b);
    if r.Exchanged? {
      SuppliedUnion(r.forA, a, b - missed);
      SuppliedUnion(r.forB, b, a - missed);
    }
    TangleInside(h, OfferCells(|a|), Differences(a.Keys, b.Keys));
    UnionsDifferBy(a, b, missed);
  }

  lemma UnionsDifferBy(a: Envelopes, b: Envelopes, missed: set<Key>)
    requires missed <= Differences(a.Keys, b.Keys)
    ensures ((b - missed) + a).Keys == ((a - missed) + b).Keys <==> missed == {}
  {
    if k :| k in missed {
      assert k in ((b - missed) + a).Keys <==> k in a;
      assert k in ((a - missed) + b).Keys <==> k in b;
    } else {
      assert b - missed == b && a - missed == a;
      assert (b + a).Keys == (a + b).Keys;
    }
  }

  /** The sketch of one message has small counts. */
  lemma OneMessageFits(h: Hash, n: nat, x: Key)
    requires n > 0
    ensures ByteCounts(TableFor(h, n, {x}))
  {
    forall c | 0 <= c < n
      ensures 0 <= TableFor(h, n, {x})[c].count < 256
    {
      OneSidedCount(h, n, {x}, {x}, c, true);
      LoadRemove(h, n, {x}, c, x);
      assert {x} - {x} == {};
    }
  }

  lemma TwinTable(h: Hash, n: nat, x: Key, y: Key)
    requires n > 0 && x != y && forall c :: 0 <= c < n ==> Hits(h, n, x, c) == Hits(h, n, y, c)
    ensures Differences({x}, {y}) == {x, y}
    ensures var t := Minus(TableFor(h, n, {x}), TableFor(h, n, {y}));
            Holds(h, t, {x}, {x, y}) && FirstPure(t).None? && AllEmpty(t)
  {
    assert Differences({x}, {y}) == {x, y};
    DifferenceHolds(h, n, {x}, {y});
    var t := Minus(TableFor(h, n, {x}), TableFor(h, n, {y}));
    forall c | 0 <= c < n
      ensures t[c].count == 0
    {
      TwinCountsCancel(h, n, x, y, c);
    }
  }

  /** For every hash there are two stores, one message each, whose exchange goes through with nothing handed over. */
  lemma SomeExchangeMissesAMessage(h: Hash, e: StoredEnvelope) returns (a: Envelopes, b: Envelopes)
    ensures WellIndexed(a) && WellIndexed(b) && |a| == |b| == 1 && a.Keys != b.Keys
    ensures ExchangeOf(h, a, b) == Exchanged([], [])
  {
    var x, y := TwinKeysForEveryHash(h, 36);
    a, b := map[x := e.(messageId := x)], map[y := e.(messageId := y)];
    assert a.Keys == {x} && b.Keys == {y} && x in a && y in b;
    TwinExchange(h, a, b, x, y);
  }

  lemma TwinExchange(h: Hash, a: Envelopes, b: Envelopes, x: Key, y: Key)
    requires WellIndexed(a) && WellIndexed(b) && |a| == 1 && a.Keys == {x} && b.Keys == {y} && x != y
    requires forall c :: 0 <= c < 36 ==> Hits(h, 36, x, c) == Hits(h, 36, y, c)
    ensures ExchangeOf(h, a, b) == Exchanged([], [])
  {
    hide ExchangeOf, Content, Hits, TableFor, Minus, Load, Tangle, ByteCounts;
    OneMessageFits(h, 36, x);
    OneMessageFits(h, 36, y);
    TwinTable(h, 36, x, y);
    var t := Minus(TableFor(h, 36, {x}), TableFor(h, 36, {y}));
    StuckMeansTangled(h, t, {x}, {x, y});
    assert SketchesFit(h, a, b);
    assert Missed(h, a, b) == {x, y} && Unnoticed(h, a, b);
    ExchangeReconciles(h, a, b);
    var r := ExchangeOf(h, a, b);
    NothingSupplied(r.forA, a, b - {x, y});
    NothingSupplied(r.forB, b, a - {x, y});
  }

  lemma SuppliedIsTheirs(missing: seq<StoredEnvelope>, mine: Envelopes, theirs: Envelopes, i: nat)
    requires Supplies(missing, mine, theirs) && i < |missing|
    ensures missing[i].messageId in theirs.Keys - mine.Keys
  {
  }

  lemma NothingSupplied(missing: seq<StoredEnvelope>, mine: Envelopes, theirs: Envelopes)
    requires Supplies(missing, mine, theirs) && theirs.Keys <= mine.Keys
    ensures missing == []
  {
    hide Supplies;
    if |missing| > 0 {
      SuppliedIsTheirs(missing, mine, theirs, 0);
      assert false;
    }
  }
}
