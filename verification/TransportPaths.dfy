/**
 Transport path ranking (cli/src/transport_bridge.rs). Reliabilities are kept in hundredths.
 */
module TransportPaths {
  import opened Sequences

  datatype TransportType = BLE | WiFiAware | WiFiDirect | Internet | Local

  datatype TransportPath = TransportPath(
    source: TransportType,
    bridge: TransportType,
    destination: TransportType,
    peerId: string,
    reliability: nat,
    latency: nat)

  const WASM_TRANSPORTS: seq<TransportType> := [Internet, Local]

  function Reliability(source: TransportType, destination: TransportType): nat {
    match (source, destination)
    case (Local, WiFiDirect) => 95
    case (Local, WiFiAware) => 90
    case (Local, BLE) => 85
    case (Local, Local) => 90
    case (Local, Internet) => 80
    case (Internet, WiFiDirect) => 85
    case (Internet, WiFiAware) => 80
    case (Internet, BLE) => 75
    case (Internet, Local) => 80
    case (Internet, Internet) => 70
    case _ => 60
  }

  function Latency(source: TransportType, destination: TransportType): nat {
    match (source, destination)
    case (Local, WiFiDirect) => 5
    case (Local, WiFiAware) => 10
    case (Local, BLE) => 20
    case (Local, Local) => 2
    case (Local, Internet) => 50
    case (Internet, WiFiDirect) => 30
    case (Internet, WiFiAware) => 40
    case (Internet, BLE) => 60
    case (Internet, Local) => 20
    case (Internet, Internet) => 100
    case _ => 150
  }

  function Via(source: TransportType, peer: string): TransportType -> TransportPath {
    (d: TransportType) => TransportPath(source, Internet, d, peer, Reliability(source, d), Latency(source, d))
  }

  /** The order both selectors use: more reliable first, then lower latency. */
  function NoWorse(): (TransportPath, TransportPath) -> bool {
    (a: TransportPath, b: TransportPath) =>
      a.reliability > b.reliability || (a.reliability == b.reliability && a.latency <= b.latency)
  }

  /** Paths in generation order, before ranking. */
  function Candidates(caps: seq<TransportType>, peer: string): seq<TransportPath> {
    Map(Via(Internet, peer), caps) + Map(Via(Local, peer), caps)
  }

  function Ranked(caps: seq<TransportType>, peer: string): seq<TransportPath> {
    Sort(NoWorse(), Candidates(caps, peer))
  }

  /** The head of the ranking. */
  function Best(caps: seq<TransportType>, peer: string): Option<TransportPath> {
    if Ranked(caps, peer) == [] then None else Some(Ranked(caps, peer)[0])
  }

  // ---------------------------------------------------------------- ranking

  lemma NoWorseRanks()
    ensures Ranking(NoWorse())
  {
  }

  lemma CandidateMember(caps: seq<TransportType>, peer: string, p: TransportPath)
    ensures p in Candidates(caps, peer) <==>
            p.source in WASM_TRANSPORTS && p.destination in caps && p == Via(p.source, peer)(p.destination)
  {
    MapMember(Via(Internet, peer), caps, p);
    MapMember(Via(Local, peer), caps, p);
  }

  /** Equal scores mean the same source and destination. */
  lemma ScoresAreInjective(s: TransportType, d: TransportType, s': TransportType, d': TransportType)
    requires s in WASM_TRANSPORTS && s' in WASM_TRANSPORTS
    requires Reliability(s, d) == Reliability(s', d') && Latency(s, d) == Latency(s', d')
    ensures s == s' && d == d'
  {
  }

  lemma CandidatesHaveNoTies(caps: seq<TransportType>, peer: string)
    ensures NoTies(NoWorse(), Candidates(caps, peer))
  {
    hide Candidates, Reliability, Latency;
    var s := Candidates(caps, peer);
    forall i, j | 0 <= i < |s| && 0 <= j < |s| && NoWorse()(s[i], s[j]) && NoWorse()(s[j], s[i])
      ensures s[i] == s[j]
    {
      CandidateMember(caps, peer, s[i]);
      CandidateMember(caps, peer, s[j]);
      ScoresAreInjective(s[i].source, s[i].destination, s[j].source, s[j].destination);
    }
  }

  lemma {:induction false} ViaCount(source: TransportType, peer: string, caps: seq<TransportType>, p: TransportPath)
    ensures multiset(Map(Via(source, peer), caps))[p] ==
            if p == Via(source, peer)(p.destination) then multiset(caps)[p.destination] else 0
  {
    if caps != [] {
      var f := Via(source, peer);
      ViaCount(source, peer, caps[1..], p);
      assert caps == [caps[0]] + caps[1..];
      assert Map(f, caps) == [f(caps[0])] + Map(f, caps[1..]);
      assert f(caps[0]).destination == caps[0];
    }
  }

  lemma CandidatesPermute(a: seq<TransportType>, b: seq<TransportType>, peer: string)
    requires multiset(a) == multiset(b)
    ensures multiset(Candidates(a, peer)) == multiset(Candidates(b, peer))
  {
    forall p
      ensures multiset(Candidates(a, peer))[p] == multiset(Candidates(b, peer))[p]
    {
      ViaCount(Internet, peer, a, p);
      ViaCount(Internet, peer, b, p);
      ViaCount(Local, peer, a, p);
      ViaCount(Local, peer, b, p);
    }
  }

  /** The ranking depends on the capabilities as a multiset, not on their order. */
  lemma RankingIgnoresOrder(a: seq<TransportType>, b: seq<TransportType>, peer: string)
    requires multiset(a) == multiset(b)
    ensures Ranked(a, peer) == Ranked(b, peer)
  {
    CandidatesPermute(a, b, peer);
    NoWorseRanks();
    CandidatesHaveNoTies(a, peer);
    SortPermutation(NoWorse(), Candidates(a, peer), Candidates(b, peer));
  }

  lemma RankedMember(caps: seq<TransportType>, peer: string, p: TransportPath)
    ensures p in Ranked(caps, peer) <==> p in Candidates(caps, peer)
  {
    SortMember(NoWorse(), Candidates(caps, peer), p);
  }

  /** The best path is no worse than any other; there is one exactly when there is a capability. */
  lemma BestIsOptimal(caps: seq<TransportType>, peer: string, source: TransportType, d: TransportType)
    requires source in WASM_TRANSPORTS && d in caps
    ensures Best(caps, peer).Some? && Best(caps, peer).value in Candidates(caps, peer)
    ensures NoWorse()(Best(caps, peer).value, Via(source, peer)(d))
    ensures var best := Best(caps, peer).value;
            || best.reliability > Reliability(source, d)
            || (best.reliability == Reliability(source, d) && best.latency <= Latency(source, d))
  {
    var p := Via(source, peer)(d);
    var r := Ranked(caps, peer);
    CandidateMember(caps, peer, p);
    RankedMember(caps, peer, p);
    RankedMember(caps, peer, r[0]);
    NoWorseRanks();
    SortIsSorted(NoWorse(), Candidates(caps, peer));
    var i :| 0 <= i < |r| && r[i] == p;
    assert NoWorse()(r[0], r[i]);
  }

  lemma BestExists(caps: seq<TransportType>, peer: string)
    ensures Best(caps, peer).Some? <==> caps != []
  {
    SortMultiset(NoWorse(), Candidates(caps, peer));
  }

  /** More capabilities, in any order and number, never worsen the best path. */
  lemma MoreIsNoWorse(few: seq<TransportType>, many: seq<TransportType>, peer: string)
    requires few != [] && forall d :: d in few ==> d in many
    ensures Best(few, peer).Some? && Best(many, peer).Some?
    ensures NoWorse()(Best(many, peer).value, Best(few, peer).value)
  {
    BestIsOptimal(few, peer, Local, few[0]);
    var p := Best(few, peer).value;
    CandidateMember(few, peer, p);
    BestIsOptimal(many, peer, p.source, p.destination);
  }

  /** All ten paths there can be, the best first. */
  ghost function Standing(peer: string): seq<TransportPath> {
    [TransportPath(Local, Internet, WiFiDirect, peer, 95, 5),
     TransportPath(Local, Internet, Local, peer, 90, 2),
     TransportPath(Local, Internet, WiFiAware, peer, 90, 10),
     TransportPath(Local, Internet, BLE, peer, 85, 20),
     TransportPath(Internet, Internet, WiFiDirect, peer, 85, 30),
     TransportPath(Internet, Internet, Local, peer, 80, 20),
     TransportPath(Internet, Internet, WiFiAware, peer, 80, 40),
     TransportPath(Local, Internet, Internet, peer, 80, 50),
     TransportPath(Internet, Internet, BLE, peer, 75, 60),
     TransportPath(Internet, Internet, Internet, peer, 70, 100)]
  }

  lemma PlaceOf(source: TransportType, d: TransportType, peer: string) returns (a: nat)
    requires source in WASM_TRANSPORTS
    ensures a < 10 && Standing(peer)[a] == Via(source, peer)(d)
  {
    if source == Local {
      a := match d case WiFiDirect => 0 case Local => 1 case WiFiAware => 2 case BLE => 3 case Internet => 7;
    } else {
      a := match d case WiFiDirect => 4 case Local => 5 case WiFiAware => 6 case BLE => 8 case Internet => 9;
    }
  }

  lemma StandingIsStrict(peer: string, a: nat, b: nat)
    requires a < b < 10
    ensures !NoWorse()(Standing(peer)[b], Standing(peer)[a])
  {
  }

  /** Whatever a peer's capabilities, its ranking follows the one standing order of paths. */
  lemma RankedByStanding(caps: seq<TransportType>, peer: string, i: nat, j: nat) returns (a: nat, b: nat)
    requires i <= j < |Ranked(caps, peer)|
    ensures a <= b < 10
    ensures Ranked(caps, peer)[i] == Standing(peer)[a] && Ranked(caps, peer)[j] == Standing(peer)[b]
  {
    hide Standing, Via, Candidates, Reliability, Latency;
    var r := Ranked(caps, peer);
    RankedMember(caps, peer, r[i]);
    RankedMember(caps, peer, r[j]);
    CandidateMember(caps, peer, r[i]);
    CandidateMember(caps, peer, r[j]);
    a := PlaceOf(r[i].source, r[i].destination, peer);
    b := PlaceOf(r[j].source, r[j].destination, peer);
    NoWorseRanks();
    SortIsSorted(NoWorse(), Candidates(caps, peer));
    assert NoWorse()(r[i], r[j]);
    if b < a {
      StandingIsStrict(peer, b, a);
    }
  }

  /** So the best path starts at the local transport and leads to the first of five destinations the peer has. */
  lemma BestByPreference(caps: seq<TransportType>, peer: string, place: nat)
    requires place < 10 && Standing(peer)[place].destination in caps
    requires forall a :: 0 <= a < place ==> Standing(peer)[a].destination !in caps
    ensures Best(caps, peer) == Some(Standing(peer)[place])
  {
    hide Candidates, Reliability, Latency;
    var p := Standing(peer)[place];
    var a := PlaceOf(p.source, p.destination, peer);
    assert a == place by { StandingIsOnce(peer, a, place); }
    CandidateMember(caps, peer, p);
    RankedMember(caps, peer, p);
    var r := Ranked(caps, peer);
    var j :| 0 <= j < |r| && r[j] == p;
    var x, y := RankedByStanding(caps, peer, 0, j);
    RankedMember(caps, peer, r[0]);
    CandidateMember(caps, peer, r[0]);
    StandingIsOnce(peer, y, place);
  }

  lemma StandingIsOnce(peer: string, a: nat, b: nat)
    requires a < 10 && b < 10 && Standing(peer)[a].source == Standing(peer)[b].source
    requires Standing(peer)[a].destination == Standing(peer)[b].destination
    ensures a == b
  {
  }

  // ------------------------------------------------------------ the object

  class TransportBridge {
    var peerCapabilities: map<string, seq<TransportType>>
    const cliCapabilities: seq<TransportType>

    constructor (native: bool)
      ensures peerCapabilities == map[] && cliCapabilities != []
      ensures Internet in cliCapabilities && Local in cliCapabilities && (BLE in cliCapabilities <==> native)
    {
      peerCapabilities := map[];
      cliCapabilities := [Internet, Local] + if native then [BLE] else [];
    }

    method RegisterPeer(peer: string, caps: seq<TransportType>)
      modifies this
      ensures peerCapabilities == old(peerCapabilities)[peer := caps]
    {
      peerCapabilities := peerCapabilities[peer := caps];
    }

    method AppendPaths(source: TransportType, caps: seq<TransportType>, peer: string, before: seq<TransportPath>)
      returns (paths: seq<TransportPath>)
      ensures paths == before + Map(Via(source, peer), caps)
    {
      hide Via;
      paths := before;
      for i := 0 to |caps|
        invariant paths == before + Map(Via(source, peer), caps[..i])
      {
        assert caps[..i + 1] == caps[..i] + [caps[i]];
        MapConcat(Via(source, peer), caps[..i], [caps[i]]);
        paths := paths + [Via(source, peer)(caps[i])];
      }
      assert caps[..|caps|] == caps;
    }

    method FindAllPaths(peer: string) returns (paths: seq<TransportPath>)
      ensures paths == if peer in peerCapabilities then Ranked(peerCapabilities[peer], peer) else []
    {
      hide Via, Sort, Map;
      paths := [];
      if peer !in peerCapabilities {
        return;
      }
      var caps := peerCapabilities[peer];
      for k := 0 to |WASM_TRANSPORTS|
        invariant k == 0 ==> paths == []
        invariant k == 1 ==> paths == Map(Via(Internet, peer), caps)
        invariant k == 2 ==> paths == Candidates(caps, peer)
      {
        paths := AppendPaths(WASM_TRANSPORTS[k], caps, peer, paths);
      }
      paths := Sort(NoWorse(), paths);
    }

    method FindBestPath(peer: string) returns (best: Option<TransportPath>)
      ensures best == if peer in peerCapabilities then Best(peerCapabilities[peer], peer) else None
    {
      var paths := FindAllPaths(peer);
      best := if paths == [] then None else Some(paths[0]);
    }

    /** Keeps the last of equal maxima, and still picks what `FindBestPath` picks. */
    method GetBestForwardingPath(peer: string) returns (best: Option<TransportPath>)
      ensures best == if peer in peerCapabilities then Best(peerCapabilities[peer], peer) else None
    {
      var paths := FindAllPaths(peer);
      if paths == [] {
        return None;
      }
      var top := paths[0];
      for i := 1 to |paths|
        invariant top == paths[0]
      {
        HeadWins(peerCapabilities[peer], peer, i);
        if NoWorse()(paths[i], top) {
          top := paths[i];
        }
      }
      return Some(top);
    }

    method CanReachDestination(peer: string) returns (ok: bool)
      requires cliCapabilities != []
      ensures ok <==> peer in peerCapabilities && Best(peerCapabilities[peer], peer).Some?
    {
      ok := false;
      if peer in peerCapabilities {
        BestExists(peerCapabilities[peer], peer);
        ok := exists d, c :: d in peerCapabilities[peer] && c in cliCapabilities;
        var caps := peerCapabilities[peer];
        assert caps != [] ==> caps[0] in caps && cliCapabilities[0] in cliCapabilities;
      }
    }
  }

  /** Whatever ties with the head of the ranking is the same path. */
  lemma HeadWins(caps: seq<TransportType>, peer: string, i: nat)
    requires i < |Ranked(caps, peer)|
    ensures NoWorse()(Ranked(caps, peer)[i], Ranked(caps, peer)[0]) ==> Ranked(caps, peer)[i] == Ranked(caps, peer)[0]
  {
    var r := Ranked(caps, peer);
    NoWorseRanks();
    SortIsSorted(NoWorse(), Candidates(caps, peer));
    CandidatesHaveNoTies(caps, peer);
    forall p | p in r
      ensures p in Candidates(caps, peer)
    {
      RankedMember(caps, peer, p);
    }
    NoTiesTransfer(NoWorse(), Candidates(caps, peer), r);
    assert i > 0 ==> NoWorse()(r[0], r[i]);
  }
}
