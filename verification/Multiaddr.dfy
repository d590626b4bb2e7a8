/**
 Multiaddress handling shared by the ledger, the bootstrap list and the config:
 everything from the first "/p2p/" on is the peer id and is stripped.
 */
module Multiaddr {
  import opened Sequences
  import opened Text

  const P2P: string := "/p2p/"

  function Strip(addr: string): string {
    match Find(addr, P2P)
    case None => addr
    case Some(i) => addr[..i]
  }

  /** The stripped address and the peer id, if any. */
  function ParseBootstrapAddr(addr: string): (string, Option<string>) {
    (Strip(addr), match Find(addr, P2P) case None => None case Some(i) => Some(addr[i + 5..]))
  }

  /** A stripped address contains no peer id part, so stripping again changes nothing. */
  lemma StripIdempotent(addr: string)
    ensures !Contains(Strip(addr), P2P)
    ensures Strip(Strip(addr)) == Strip(addr)
  {
    var s := Strip(addr);
    forall j | 0 <= j <= |s|
      ensures !OccursAt(s, P2P, j)
    {
      if OccursAt(s, P2P, j) {
        assert addr[j..j + 5] == s[j..j + 5];
        assert OccursAt(addr, P2P, j);
      }
    }
  }

  /** Splitting loses nothing: the parts spell the input again. */
  lemma ParseIsLossless(addr: string)
    ensures match ParseBootstrapAddr(addr)
            case (s, None) => addr == s && !Contains(addr, P2P)
            case (s, Some(id)) => addr == s + P2P + id
  {
    match Find(addr, P2P)
    case None =>
    case Some(i) =>
      assert addr == addr[..i] + addr[i..i + 5] + addr[i + 5..];
  }

  lemma JoinedOccurrence(s: string, id: string, j: nat)
    requires j < |s| && OccursAt(s + P2P + id, P2P, j)
    ensures OccursAt(s, P2P, j) || (EndsWith(s, "/p2p") && j == |s| - 4)
  {
    var t := s + P2P + id;
    if j + 5 <= |s| {
      assert t[j..j + 5] == s[j..j + 5];
    } else {
      var m := |s| - j;
      assert t[j..j + 5][m] == t[|s|];
      assert P2P[m] == P2P[0] == '/';
      assert m == 4;
      assert t[j..j + 5][..4] == s[j..];
      assert P2P[..4] == "/p2p";
    }
  }

  lemma StripBefore(t: string, j: nat)
    requires OccursAt(t, P2P, j)
    ensures |Strip(t)| <= j
  {
    hide OccursAt;
    assert j <= |t| by { OccursInside(t, j); }
  }

  lemma OccursInside(t: string, j: nat)
    requires OccursAt(t, P2P, j)
    ensures j <= |t|
  {
  }

  lemma StripAt(t: string, j: nat)
    requires OccursAt(t, P2P, j) && forall i :: 0 <= i < j ==> !OccursAt(t, P2P, i)
    ensures j <= |t| && Strip(t) == t[..j]
  {
    hide OccursAt;
    OccursInside(t, j);
  }

  /** Giving a stripped address any peer id and stripping it gives the address back, unless it ends in "/p2p". */
  lemma RejoinStrips(s: string, id: string)
    requires Strip(s) == s
    ensures Strip(s + P2P + id) == s <==> !EndsWith(s, "/p2p")
  {
    hide Strip;
    var t := s + P2P + id;
    StripIdempotent(s);
    assert t[|s|..|s| + 5] == P2P;
    assert OccursAt(t, P2P, |s|);
    if EndsWith(s, "/p2p") {
      var j := |s| - 4;
      assert t[j..j + 5] == s[j..] + [t[|s|]];
      StripBefore(t, j);
    } else {
      forall i | 0 <= i < |s|
        ensures !OccursAt(t, P2P, i)
      {
        if OccursAt(t, P2P, i) {
          JoinedOccurrence(s, id, i);
          assert false;
        }
      }
      StripAt(t, |s|);
      assert t[..|s|] == s;
    }
  }
}
