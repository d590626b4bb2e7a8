/**
 Identity backup export and import (core/src/iron_core.rs): one encrypted text holding the
 identity key, the ratchet sessions and both contact stores; import validates all of it
 before it commits any of it.

 JSON and the cipher are the fields of a `Codec`; `Lawful` says what is assumed of them.
 */
module IdentityBackup {
  import opened Sequences
  import opened Hex
  import opened RatchetSessions
  import Contacts

  const PAYLOAD_VERSION: nat := 2

  /** A record of the core contact store. */
  datatype CoreContact = CoreContact(
    peerId: string,
    nickname: Option<string>,
    localNickname: Option<string>,
    publicKey: string,
    addedAt: nat,
    lastSeen: Option<nat>,
    notes: Option<string>,
    lastKnownDeviceId: Option<string>)

  type CoreBook = map<string, CoreContact>
  type BridgeBook = map<string, Contacts.Contact>

  datatype Payload = Payload(
    version: nat,
    identityKeyHex: string,
    ratchetSessionsJson: Option<string>,
    contacts: seq<CoreContact>,
    bridgeContactsJson: Option<string>)

  datatype Codec = Codec(
    showPayload: Payload -> string,
    parsePayload: string -> Option<Payload>,
    showSessions: Snapshots -> string,
    parseSessions: string -> Option<Snapshots>,
    showBridge: seq<Contacts.Contact> -> string,
    parseBridge: string -> Option<seq<Contacts.Contact>>,
    encrypt: (string, string, nat) -> string,
    decrypt: (string, string) -> Option<string>)

  /** Parsers read back what was shown, and a record is never read from text without a bracket. */
  ghost predicate Lawful(c: Codec) {
    && (forall p :: c.parsePayload(c.showPayload(p)) == Some(p))
    && (forall m :: c.parseSessions(c.showSessions(m)) == Some(m))
    && (forall l :: c.parseBridge(c.showBridge(l)) == Some(l))
    && (forall text, pass, coins :: c.decrypt(c.encrypt(text, pass, coins), pass) == Some(text))
    && (forall s :: c.parsePayload(s).Some? ==> '{' in s || '[' in s)
  }

  /** `bridge` exists only for a core with storage. */
  datatype Core = Core(key: Option<Bytes>, sessions: Sessions, contacts: CoreBook, bridge: Option<BridgeBook>)

  ghost predicate WellFormed(s: Core) {
    && (s.key.Some? ==> KeySized(s.key.value))
    && (forall p :: p in s.sessions ==> Sized(s.sessions[p]))
    && (forall p :: p in s.contacts ==> s.contacts[p].peerId == p)
    && (s.bridge.Some? ==> Contacts.WellKeyed(s.bridge.value))
  }

  // --------------------------------------------------------- contact lists

  /** `list` holds each record of `m` once, in some order. */
  ghost predicate Lists<C>(m: map<string, C>, list: seq<C>, id: C -> string) {
    && (forall i, j :: 0 <= i < j < |list| ==> id(list[i]) != id(list[j]))
    && (forall x :: x in list ==> id(x) in m && m[id(x)] == x)
    && (forall p :: p in m ==> m[p] in list)
  }

  /** Adding records one by one; a later record replaces an earlier one of the same id. */
  function AddAll<C>(m: map<string, C>, list: seq<C>, id: C -> string): map<string, C> {
    if list == [] then m else AddAll(m, list[..|list| - 1], id)[id(list[|list| - 1]) := list[|list| - 1]]
  }

  lemma {:induction false} AddAllKeys<C>(m: map<string, C>, list: seq<C>, id: C -> string, p: string)
    ensures p in AddAll(m, list, id) <==> p in m || exists i :: 0 <= i < |list| && id(list[i]) == p
    ensures p in AddAll(m, list, id) ==>
              if exists i :: 0 <= i < |list| && id(list[i]) == p
              then AddAll(m, list, id)[p] in list && id(AddAll(m, list, id)[p]) == p
              else p in m && AddAll(m, list, id)[p] == m[p]
  {
    if list != [] {
      var front, last := list[..|list| - 1], list[|list| - 1];
      AddAllKeys(m, front, id, p);
      assert list == front + [last];
      if i :| 0 <= i < |list| && id(list[i]) == p && p != id(last) {
        assert front[i] == list[i];
      }
      if i :| 0 <= i < |front| && id(front[i]) == p {
        assert list[i] == front[i];
      }
      if p == id(last) {
        assert list[|list| - 1] == last;
      }
    }
  }

  /** Restoring a listed store overwrites record by record and keeps the rest. */
  lemma RestoreList<C>(m: map<string, C>, source: map<string, C>, list: seq<C>, id: C -> string)
    requires Lists(source, list, id) && forall p :: p in source ==> id(source[p]) == p
    ensures AddAll(m, list, id) == m + source
  {
    var r := AddAll(m, list, id);
    forall p: string
      ensures p in r <==> p in m + source
      ensures p in r ==> r[p] == (m + source)[p]
    {
      AddAllKeys(m, list, id, p);
      if p in source {
        var i :| 0 <= i < |list| && list[i] == source[p];
      }
      if i :| 0 <= i < |list| && id(list[i]) == p {
        assert list[i] in list;
      }
    }
  }

  function CoreId(): CoreContact -> string {
    (c: CoreContact) => c.peerId
  }

  function BridgeId(): Contacts.Contact -> string {
    (c: Contacts.Contact) => c.peerId
  }

  // ---------------------------------------------------------------- export

  /** `p` is a payload built from `s`; contact lists may come in any order. */
  ghost predicate PayloadOf(c: Codec, s: Core, p: Payload) {
    && s.key.Some?
    && p.version == 2
    && p.identityKeyHex == Encode(s.key.value)
    && p.ratchetSessionsJson == Some(c.showSessions(SnapshotsOf(s.sessions)))
    && Lists(s.contacts, p.contacts, CoreId())
    && (if s.bridge.None? || s.bridge.value == map[] then p.bridgeContactsJson.None?
        else exists list :: Lists(s.bridge.value, list, BridgeId()) && p.bridgeContactsJson == Some(c.showBridge(list)))
  }

  // ---------------------------------------------------------------- import

  /** Everything an import is about to write. */
  datatype Staged = Staged(
    key: Bytes,
    sessions: Option<Snapshots>,
    contacts: seq<CoreContact>,
    bridge: seq<Contacts.Contact>)

  ghost predicate SessionsValid(c: Codec, json: Option<string>) {
    json.Some? ==> c.parseSessions(json.value).Some? && Loadable(map[], c.parseSessions(json.value).value)
  }

  ghost function StageStructured(c: Codec, p: Payload): Option<Staged> {
    if Decode(p.identityKeyHex).None? then None
    else if !SessionsValid(c, p.ratchetSessionsJson) then None
    else if p.bridgeContactsJson.Some? && c.parseBridge(p.bridgeContactsJson.value).None? then None
    else Some(Staged(
                Decode(p.identityKeyHex).value,
                if p.ratchetSessionsJson.Some? then c.parseSessions(p.ratchetSessionsJson.value) else None,
                p.contacts,
                if p.bridgeContactsJson.Some? then c.parseBridge(p.bridgeContactsJson.value).value else []))
  }

  /** The structured form, or failing that a bare hexadecimal key. */
  ghost function Stage(c: Codec, text: string): Option<Staged> {
    if c.parsePayload(text).Some? then StageStructured(c, c.parsePayload(text).value)
    else if Decode(text).Some? then Some(Staged(Decode(text).value, None, [], []))
    else None
  }

  /** An import goes through when the text stages and the key has the right length. */
  ghost predicate Importable(c: Codec, backup: string, pass: string) {
    && c.decrypt(backup, pass).Some?
    && Stage(c, c.decrypt(backup, pass).value).Some?
    && KeySized(Stage(c, c.decrypt(backup, pass).value).value.key)
  }

  ghost predicate Committable(s: Core, staged: Staged) {
    staged.sessions.Some? ==> Loadable(s.sessions, staged.sessions.value)
  }

  ghost function Committed(s: Core, staged: Staged): Core
    requires Committable(s, staged)
  {
    Core(Some(staged.key),
         if staged.sessions.Some? then Loaded(s.sessions, staged.sessions.value) else s.sessions,
         AddAll(s.contacts, staged.contacts, CoreId()),
         if s.bridge.Some? then Some(AddAll(s.bridge.value, staged.bridge, BridgeId())) else None)
  }

  /** The committing session parse cannot fail once the probe accepted, whatever sessions exist. */
  lemma StagedIsCommittable(c: Codec, text: string, s: Core)
    requires Stage(c, text).Some?
    ensures Committable(s, Stage(c, text).value)
  {
    var staged := Stage(c, text).value;
    if staged.sessions.Some? {
      ProbeImpliesCommit(s.sessions, staged.sessions.value);
    }
  }

  /** Text that decodes as hexadecimal is never taken for the structured form. */
  lemma LegacyIsNeverStructured(c: Codec, text: string)
    requires Lawful(c) && Decode(text).Some?
    ensures c.parsePayload(text).None?
    ensures Stage(c, text) == Some(Staged(Decode(text).value, None, [], []))
  {
    hide Decode, StageStructured;
    DecodesExactlyWhen(text);
    assert !AllDigits(text) || ('{' !in text && '[' !in text);
  }

  /** Importing a backup from before the structured form replaces the key and nothing else. */
  lemma LegacyImport(c: Codec, key: Bytes, s: Core)
    requires Lawful(c) && KeySized(key)
    ensures Stage(c, Encode(key)).Some? && Committable(s, Stage(c, Encode(key)).value)
    ensures Committed(s, Stage(c, Encode(key)).value) == s.(key := Some(key))
  {
    RoundTrip(key);
    LegacyIsNeverStructured(c, Encode(key));
  }

  // ------------------------------------------------------------ round trip

  ghost function ReloadedSessions(s: Sessions): Sessions {
    map p | p in s :: Reloaded(s[p])
  }

  function BridgeOf(s: Core): BridgeBook {
    if s.bridge.Some? then s.bridge.value else map[]
  }

  lemma ExportStages(c: Codec, from: Core, p: Payload, into: Core)
    requires Lawful(c) && WellFormed(from) && PayloadOf(c, from, p)
    ensures StageStructured(c, p).Some?
    ensures StageStructured(c, p).value.key == from.key.value
    ensures StageStructured(c, p).value.sessions == Some(SnapshotsOf(from.sessions))
    ensures StageStructured(c, p).value.contacts == p.contacts
    ensures Lists(BridgeOf(from), StageStructured(c, p).value.bridge, BridgeId())
  {
    hide Loaded, FromSession, Sized;
    RoundTrip(from.key.value);
    SavedSessionsLoad(from.sessions, into.sessions);
  }

  /**
   What importing a backup of `from` makes of `into`: the exported key, exported contacts over the
   old ones, and exported sessions for every peer without a session of its own.
   */
  ghost function Restored(from: Core, into: Core): Core {
    Core(from.key,
         ReloadedSessions(from.sessions) + into.sessions,
         into.contacts + from.contacts,
         if into.bridge.Some? then Some(into.bridge.value + BridgeOf(from)) else None)
  }

  lemma CommitRestores(c: Codec, from: Core, p: Payload, into: Core)
    requires Lawful(c) && WellFormed(from) && PayloadOf(c, from, p)
    ensures Stage(c, c.showPayload(p)).Some? && Committable(into, Stage(c, c.showPayload(p)).value)
    ensures Committed(into, Stage(c, c.showPayload(p)).value) == Restored(from, into)
    ensures from.key == Some(Stage(c, c.showPayload(p)).value.key)
  {
    hide Lists, Loaded, Loadable, AddAll, Decode, FromSession, SnapshotsOf;
    ExportStages(c, from, p, into);
    var staged := Stage(c, c.showPayload(p)).value;
    StagedIsCommittable(c, c.showPayload(p), into);
    assert Loaded(into.sessions, SnapshotsOf(from.sessions)) == ReloadedSessions(from.sessions) + into.sessions by {
      SavedSessionsLoad(from.sessions, into.sessions);
    }
    assert AddAll(into.contacts, staged.contacts, CoreId()) == into.contacts + from.contacts by {
      RestoreList(into.contacts, from.contacts, p.contacts, CoreId());
    }
    if into.bridge.Some? {
      RestoreList(into.bridge.value, BridgeOf(from), staged.bridge, BridgeId());
    }
  }

  /** The sessions of a payload, if it has any, parse, and each one loads. */
  ghost predicate GoodSessions(c: Codec, json: Option<string>) {
    json.Some? ==>
      && c.parseSessions(json.value).Some?
      && forall p :: p in c.parseSessions(json.value).value ==> IntoSession(c.parseSessions(json.value).value[p]).Some?
  }

  /**
   A backup imports exactly when it decrypts and is either a payload whose key has 64 hexadecimal
   digits, whose sessions all load and whose contacts parse, or else bare text of such a key.
   */
  lemma ImportableExactlyWhen(c: Codec, backup: string, pass: string)
    ensures Importable(c, backup, pass) <==>
            && c.decrypt(backup, pass).Some?
            && match c.parsePayload(c.decrypt(backup, pass).value)
               case Some(p) =>
                 && KeyText(p.identityKeyHex) && GoodSessions(c, p.ratchetSessionsJson)
                 && (p.bridgeContactsJson.Some? ==> c.parseBridge(p.bridgeContactsJson.value).Some?)
               case None => KeyText(c.decrypt(backup, pass).value)
  {
    hide KeyText, Decode;
    if c.decrypt(backup, pass).Some? {
      var text := c.decrypt(backup, pass).value;
      match c.parsePayload(text)
      case Some(p) => KeyTextDecodes(p.identityKeyHex);
      case None => KeyTextDecodes(text);
    }
  }

  /** `backup` is an export of `from` under `pass`. */
  ghost predicate BackupOf(c: Codec, from: Core, pass: string, backup: string) {
    exists p, coins :: PayloadOf(c, from, p) && backup == c.encrypt(c.showPayload(p), pass, coins)
  }

  /** An export always imports under its passphrase, into any core, with the restored state. */
  lemma ImportAfterExport(c: Codec, from: Core, pass: string, backup: string, into: Core)
    requires Lawful(c) && WellFormed(from) && BackupOf(c, from, pass, backup)
    ensures Importable(c, backup, pass)
    ensures var staged := Stage(c, c.decrypt(backup, pass).value).value;
            Committable(into, staged) && Committed(into, staged) == Restored(from, into)
  {
    hide Stage, Committed, Committable, PayloadOf, Restored;
    var p, coins :| PayloadOf(c, from, p) && backup == c.encrypt(c.showPayload(p), pass, coins);
    assert c.decrypt(backup, pass) == Some(c.showPayload(p));
    CommitRestores(c, from, p, into);
  }

  /** A core as constructed, with or without storage. */
  function FreshCore(storage: bool): Core {
    Core(None, map[], map[], if storage then Some(map[]) else None)
  }

  /** Into a fresh core of the same kind, everything is restored but the skipped message keys. */
  lemma RestoreOnFreshDevice(from: Core)
    ensures Restored(from, FreshCore(from.bridge.Some?)) ==
            from.(sessions := map p | p in from.sessions :: from.sessions[p].(skippedKeys := map[]))
  {
    var blank := FreshCore(from.bridge.Some?);
    assert blank.contacts + from.contacts == from.contacts;
    assert from.bridge.Some? ==> blank.bridge.value + BridgeOf(from) == BridgeOf(from);
    assert ReloadedSessions(from.sessions) + blank.sessions == ReloadedSessions(from.sessions);
  }

  // -------------------------------------------------------------- the object

  method ListRecords<C(==)>(m: map<string, C>, id: C -> string) returns (list: seq<C>)
    requires forall p :: p in m ==> id(m[p]) == p
    ensures Lists(m, list, id)
  {
    var pending := m.Keys;
    list := [];
    while pending != {}
      invariant pending <= m.Keys
      invariant forall i, j :: 0 <= i < j < |list| ==> id(list[i]) != id(list[j])
      invariant forall x :: x in list ==> id(x) in m.Keys - pending && m[id(x)] == x
      invariant forall p :: p in m && p !in pending ==> m[p] in list
      decreases pending
    {
      var p :| p in pending;
      pending := pending - {p};
      list := list + [m[p]];
    }
  }

  class IdentityCore {
    var key: Option<Bytes>
    const ratchetSessions: RatchetSessionManager
    var contacts: CoreBook
    var bridge: Option<BridgeBook>

    ghost function State(): Core
      reads this, ratchetSessions
    {
      Core(key, ratchetSessions.sessions, contacts, bridge)
    }

    constructor (storage: bool)
      ensures State() == FreshCore(storage)
      ensures fresh(ratchetSessions)
    {
      key := None;
      contacts := map[];
      bridge := if storage then Some(map[]) else None;
      ratchetSessions := new RatchetSessionManager();
    }

    method ExportIdentityBackup(c: Codec, pass: string, coins: nat) returns (r: Option<string>)
      requires WellFormed(State())
      ensures r.Some? <==> key.Some?
      ensures r.Some? ==> BackupOf(c, State(), pass, r.value)
    {
      hide Sized, Lists;
      if key.None? {
        return None;
      }
      var sessionsJson := c.showSessions(SnapshotsOf(ratchetSessions.sessions));
      var contactList := ListRecords(contacts, CoreId());
      var bridgeJson := None;
      if bridge.Some? && bridge.value != map[] {
        var bridgeList := ListRecords(bridge.value, BridgeId());
        bridgeJson := Some(c.showBridge(bridgeList));
      }
      var p := Payload(PAYLOAD_VERSION, Encode(key.value), Some(sessionsJson), contactList, bridgeJson);
      assert PayloadOf(c, State(), p);
      return Some(c.encrypt(c.showPayload(p), pass, coins));
    }

    /** Reads and checks the whole text without writing anything. */
    method Validate(c: Codec, text: string) returns (staged: Option<Staged>)
      ensures staged == Stage(c, text)
    {
      hide Decode, Loadable;
      var parsed := c.parsePayload(text);
      if parsed.None? {
        var bytes := Decode(text);
        return if bytes.None? then None else Some(Staged(bytes.value, None, [], []));
      }
      var p := parsed.value;
      var bytes := Decode(p.identityKeyHex);
      if bytes.None? {
        return None;
      }
      var snapshots: Option<Snapshots> := None;
      if p.ratchetSessionsJson.Some? {
        snapshots := c.parseSessions(p.ratchetSessionsJson.value);
        if snapshots.None? {
          return None;
        }
        var probe := new RatchetSessionManager();
        var ok := probe.LoadStrict(snapshots.value);
        if !ok {
          return None;
        }
      }
      var bridgeContacts: seq<Contacts.Contact> := [];
      if p.bridgeContactsJson.Some? {
        var list := c.parseBridge(p.bridgeContactsJson.value);
        if list.None? {
          return None;
        }
        bridgeContacts := list.value;
      }
      return Some(Staged(bytes.value, snapshots, p.contacts, bridgeContacts));
    }

    method AddContacts(list: seq<CoreContact>)
      modifies this`contacts
      ensures contacts == AddAll(old(contacts), list, CoreId())
    {
      ghost var before := contacts;
      for i := 0 to |list|
        invariant contacts == AddAll(before, list[..i], CoreId())
      {
        assert list[..i + 1][..i] == list[..i];
        contacts := contacts[list[i].peerId := list[i]];
      }
      assert list[..|list|] == list;
    }

    method AddBridgeContacts(list: seq<Contacts.Contact>)
      requires bridge.Some?
      modifies this`bridge
      ensures bridge == Some(AddAll(old(bridge.value), list, BridgeId()))
    {
      ghost var before := bridge.value;
      for i := 0 to |list|
        invariant bridge == Some(AddAll(before, list[..i], BridgeId()))
      {
        assert list[..i + 1][..i] == list[..i];
        bridge := Some(bridge.value[list[i].peerId := list[i]]);
      }
      assert list[..|list|] == list;
    }

    /** All or nothing: a backup that fails anywhere changes nothing. */
    method ImportIdentityBackup(c: Codec, backup: string, pass: string) returns (ok: bool)
      modifies this, ratchetSessions
      ensures ok <==> Importable(c, backup, pass)
      ensures ok ==> var staged := Stage(c, c.decrypt(backup, pass).value).value;
                     Committable(old(State()), staged) && State() == Committed(old(State()), staged)
      ensures !ok ==> State() == old(State())
    {
      hide Stage, Loadable, Loaded, AddAll;
      var text := c.decrypt(backup, pass);
      if text.None? {
        return false;
      }
      var staged := Validate(c, text.value);
      if staged.None? {
        return false;
      }
      StagedIsCommittable(c, text.value, State());
      if |staged.value.key| != KEY_LENGTH {
        return false;
      }
      key := Some(staged.value.key);
      if staged.value.sessions.Some? {
        var loaded := ratchetSessions.LoadStrict(staged.value.sessions.value);
        if !loaded {
          assert false;
        }
      }
      AddContacts(staged.value.contacts);
      if bridge.Some? {
        AddBridgeContacts(staged.value.bridge);
      }
      return true;
    }
  }

  /** Export from one device, import into another with the same passphrase. */
  method TransferIdentity(c: Codec, pass: string, coins: nat, from: IdentityCore, into: IdentityCore) returns (ok: bool)
    requires Lawful(c) && WellFormed(from.State())
    requires from != into && from.ratchetSessions != into.ratchetSessions
    modifies into, into.ratchetSessions
    ensures ok <==> from.key.Some?
    ensures into.State() == if ok then Restored(from.State(), old(into.State())) else old(into.State())
    ensures from.State() == old(from.State())
  {
    hide Lawful, WellFormed, BackupOf, Importable, Restored, Stage, Committed, Committable;
    var backup := from.ExportIdentityBackup(c, pass, coins);
    if backup.None? {
      return false;
    }
    ImportAfterExport(c, from.State(), pass, backup.value, into.State());
    ok := into.ImportIdentityBackup(c, backup.value, pass);
  }

  /** On a new device of the same kind the identity comes back whole, less the skipped message keys. */
  method RestoreOnNewDevice(c: Codec, pass: string, coins: nat, from: IdentityCore)
    returns (core: IdentityCore, ok: bool)
    requires Lawful(c) && WellFormed(from.State())
    ensures fresh(core) && fresh(core.ratchetSessions)
    ensures ok <==> from.key.Some?
    ensures ok ==>
              var saved := from.ratchetSessions.sessions;
              core.State() == from.State().(sessions := map p | p in saved :: saved[p].(skippedKeys := map[]))
  {
    core := new IdentityCore(from.bridge.Some?);
    ok := TransferIdentity(c, pass, coins, from, core);
    RestoreOnFreshDevice(from.State());
  }
}
