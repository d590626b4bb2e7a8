/**
 Ratchet session snapshots and their loading (core/src/crypto/session_manager.rs).
 */
module RatchetSessions {
  import opened Sequences
  import opened Hex

  datatype Chain = Chain(key: Bytes, index: nat)

  datatype Session = Session(
    ourDhSecret: Bytes,
    ourDhPublic: Bytes,
    theirDhPublic: Option<Bytes>,
    rootKey: Bytes,
    sendingChain: Option<Chain>,
    receivingChain: Option<Chain>,
    dhStepCount: nat,
    skippedKeys: map<(Bytes, nat), Bytes>,
    initialized: bool,
    ourIdentitySecret: Option<Bytes>)

  datatype ChainState = ChainState(chainKeyHex: string, index: nat)

  datatype Snapshot = Snapshot(
    ourDhSecretHex: string,
    ourDhPublicHex: string,
    theirDhPublicHex: Option<string>,
    rootKeyHex: string,
    sendingChain: Option<ChainState>,
    receivingChain: Option<ChainState>,
    dhStepCount: nat,
    initialized: bool,
    hasIdentitySecret: bool,
    identitySecretHex: Option<string>)

  type Sessions = map<string, Session>
  type Snapshots = map<string, Snapshot>

  const KEY_LENGTH: nat := 32

  predicate KeySized(b: Bytes) {
    |b| == KEY_LENGTH
  }

  /** The byte arrays of a live session have their fixed length. */
  predicate Sized(s: Session) {
    && KeySized(s.ourDhSecret) && KeySized(s.ourDhPublic) && KeySized(s.rootKey)
    && (s.theirDhPublic.Some? ==> KeySized(s.theirDhPublic.value))
    && (s.sendingChain.Some? ==> KeySized(s.sendingChain.value.key))
    && (s.receivingChain.Some? ==> KeySized(s.receivingChain.value.key))
    && (s.ourIdentitySecret.Some? ==> KeySized(s.ourIdentitySecret.value))
  }

  function EncodeOption(b: Option<Bytes>): Option<string> {
    if b.None? then None else Some(Encode(b.value))
  }

  function FreezeChain(c: Option<Chain>): Option<ChainState> {
    if c.None? then None else Some(ChainState(Encode(c.value.key), c.value.index))
  }

  function FromSession(s: Session): Snapshot {
    Snapshot(Encode(s.ourDhSecret), Encode(s.ourDhPublic), EncodeOption(s.theirDhPublic), Encode(s.rootKey),
             FreezeChain(s.sendingChain), FreezeChain(s.receivingChain), s.dhStepCount, s.initialized,
             s.ourIdentitySecret.Some?, EncodeOption(s.ourIdentitySecret))
  }

  function DecodeKey(s: string): Option<Bytes> {
    if Decode(s).Some? && KeySized(Decode(s).value) then Decode(s) else None
  }

  /** An absent field is fine; a present one has to decode. */
  predicate OptionalKey(s: Option<string>) {
    s.Some? ==> DecodeKey(s.value).Some?
  }

  function DecodeOption(s: Option<string>): Option<Bytes> {
    if s.None? then None else DecodeKey(s.value)
  }

  /** A chain key that does not decode is not an error. */
  function ThawChain(c: Option<ChainState>): Option<Chain> {
    if c.None? then None else Some(Chain(DecodeInto(c.value.chainKeyHex, KEY_LENGTH), c.value.index))
  }

  /** Skipped message keys are not part of a snapshot. */
  function IntoSession(x: Snapshot): Option<Session> {
    if DecodeKey(x.ourDhSecretHex).None? then None
    else if DecodeKey(x.ourDhPublicHex).None? then None
    else if !OptionalKey(x.theirDhPublicHex) then None
    else if DecodeKey(x.rootKeyHex).None? then None
    else if !OptionalKey(x.identitySecretHex) then None
    else Some(Session(
                DecodeKey(x.ourDhSecretHex).value, DecodeKey(x.ourDhPublicHex).value, DecodeOption(x.theirDhPublicHex),
                DecodeKey(x.rootKeyHex).value, ThawChain(x.sendingChain), ThawChain(x.receivingChain),
                x.dhStepCount, map[], x.initialized, DecodeOption(x.identitySecretHex)))
  }

  /** What a session is after being saved and loaded. */
  function Reloaded(s: Session): Session {
    s.(skippedKeys := map[])
  }

  lemma KeyRoundTrip(b: Bytes)
    requires KeySized(b)
    ensures DecodeKey(Encode(b)) == Some(b)
  {
    RoundTrip(b);
  }

  lemma OptionRoundTrip(b: Option<Bytes>)
    requires b.Some? ==> KeySized(b.value)
    ensures OptionalKey(EncodeOption(b)) && DecodeOption(EncodeOption(b)) == b
  {
    if b.Some? {
      KeyRoundTrip(b.value);
    }
  }

  lemma ChainRoundTrip(c: Option<Chain>)
    requires c.Some? ==> KeySized(c.value.key)
    ensures ThawChain(FreezeChain(c)) == c
  {
    if c.Some? {
      DecodeIntoRoundTrip(c.value.key);
    }
  }

  /** Loading a snapshot gives the session back, less its skipped keys. */
  lemma SnapshotRoundTrip(s: Session)
    requires Sized(s)
    ensures IntoSession(FromSession(s)) == Some(Reloaded(s)) == Some(s.(skippedKeys := map[]))
    ensures FromSession(s).hasIdentitySecret <==> FromSession(s).identitySecretHex.Some?
  {
    hide DecodeKey, Encode, DecodeOption, ThawChain, FreezeChain, OptionalKey;
    KeyRoundTrip(s.ourDhSecret);
    KeyRoundTrip(s.ourDhPublic);
    KeyRoundTrip(s.rootKey);
    OptionRoundTrip(s.theirDhPublic);
    OptionRoundTrip(s.ourIdentitySecret);
    ChainRoundTrip(s.sendingChain);
    ChainRoundTrip(s.receivingChain);
  }

  /** 64 hexadecimal digits. */
  ghost predicate KeyText(s: string) {
    |s| == 64 && AllDigits(s)
  }

  lemma KeyTextDecodes(s: string)
    ensures DecodeKey(s).Some? <==> KeyText(s)
  {
    hide AllDigits, Decode;
    DecodesExactlyWhen(s);
    if Decode(s).Some? {
      DecodeLength(s);
    }
  }

  /** A snapshot loads exactly when each of its five keys that is present has 64 hexadecimal digits. */
  lemma LoadsExactlyWhen(x: Snapshot)
    ensures IntoSession(x).Some? <==>
            && KeyText(x.ourDhSecretHex) && KeyText(x.ourDhPublicHex) && KeyText(x.rootKeyHex)
            && (x.theirDhPublicHex.Some? ==> KeyText(x.theirDhPublicHex.value))
            && (x.identitySecretHex.Some? ==> KeyText(x.identitySecretHex.value))
  {
    hide DecodeKey, KeyText;
    KeyTextDecodes(x.ourDhSecretHex);
    KeyTextDecodes(x.ourDhPublicHex);
    KeyTextDecodes(x.rootKeyHex);
    if x.theirDhPublicHex.Some? {
      KeyTextDecodes(x.theirDhPublicHex.value);
    }
    if x.identitySecretHex.Some? {
      KeyTextDecodes(x.identitySecretHex.value);
    }
  }

  /** Damage confined to the chains is never noticed, even by the strict loader. */
  lemma ChainDamageIsAccepted(x: Snapshot, sending: Option<ChainState>, receiving: Option<ChainState>)
    ensures IntoSession(x.(sendingChain := sending, receivingChain := receiving)).Some? <==> IntoSession(x).Some?
  {
  }

  // ------------------------------------------------------------ loading

  /** No entry that would be taken over is corrupt. */
  ghost predicate Loadable(existing: Sessions, m: Snapshots) {
    forall p :: p in m && p !in existing ==> IntoSession(m[p]).Some?
  }

  /** Existing sessions win. */
  ghost function Loaded(existing: Sessions, m: Snapshots): Sessions
    requires Loadable(existing, m)
  {
    map p | p in existing.Keys + m.Keys :: if p in existing then existing[p] else IntoSession(m[p]).value
  }

  /** What loads into an empty manager loads into any. */
  lemma ProbeImpliesCommit(existing: Sessions, m: Snapshots)
    requires Loadable(map[], m)
    ensures Loadable(existing, m)
  {
  }

  function SnapshotsOf(s: Sessions): Snapshots {
    map p | p in s :: FromSession(s[p])
  }

  /** Saved sessions load into any manager, filling in exactly the peers it has no session for. */
  lemma SavedSessionsLoad(saved: Sessions, existing: Sessions)
    requires forall p :: p in saved ==> Sized(saved[p])
    ensures Loadable(map[], SnapshotsOf(saved)) && Loadable(existing, SnapshotsOf(saved))
    ensures Loaded(existing, SnapshotsOf(saved)) == (map p | p in saved :: Reloaded(saved[p])) + existing
  {
    hide Sized, FromSession, IntoSession, Reloaded;
    forall p | p in saved
      ensures IntoSession(SnapshotsOf(saved)[p]) == Some(Reloaded(saved[p]))
    {
      SnapshotRoundTrip(saved[p]);
    }
  }

  class RatchetSessionManager {
    var sessions: Sessions

    constructor ()
      ensures sessions == map[]
    {
      sessions := map[];
    }

    /** All or nothing: entries are converted first and inserted only when every one converted. */
    method LoadStrict(m: Snapshots) returns (ok: bool)
      modifies this
      ensures ok == Loadable(old(sessions), m)
      ensures sessions == if ok then Loaded(old(sessions), m) else old(sessions)
    {
      hide IntoSession;
      var pending := m.Keys;
      var decoded: Sessions := map[];
      while pending != {}
        invariant pending <= m.Keys && sessions == old(sessions)
        invariant decoded.Keys == m.Keys - pending - sessions.Keys
        invariant forall p :: p in decoded ==> IntoSession(m[p]) == Some(decoded[p])
        decreases pending
      {
        var p :| p in pending;
        pending := pending - {p};
        if p in sessions {
          continue;
        }
        var session := IntoSession(m[p]);
        if session.None? {
          return false;
        }
        decoded := decoded[p := session.value];
      }
      assert Loadable(sessions, m);
      sessions := decoded + sessions;
      assert sessions == Loaded(old(sessions), m);
      return true;
    }
  }
}
