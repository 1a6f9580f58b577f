/**
 * Saved connection profiles of internal/config/profiles.go: which stored secret belongs to which account.
 * The history of accepted requests is kept as ghost state, and every stored secret is traced back to it.
 */
module Profiles {
  import opened Wrappers

  /**
   * The normalisers and validators of internal/profilebinding and internal/security. `endpoint` is the canonical
   * endpoint key, `isSftp` the case-insensitive protocol comparison, `samePath` the platform's path equality,
   * `byteLength` the length in UTF-8.
   */
  datatype Rules = Rules(
    trim: string -> string, endpoint: (string, string, int) -> string, isSftp: string -> bool,
    samePath: (string, string) -> bool,
    connectionOk: (string, string, string, int) -> bool, remotePathOk: string -> bool, textOk: string -> bool,
    secretOk: string -> bool, fingerprintOk: string -> bool, byteLength: string -> nat)

  ghost predicate Lawful(rules: Rules)
  {
    rules.isSftp("sftp") && rules.trim("") == "" &&
    (forall a {:trigger rules.samePath(a, a)} :: rules.samePath(a, a)) &&
    (forall a, b {:trigger rules.samePath(a, b)} :: rules.samePath(a, b) ==> rules.samePath(b, a)) &&
    (forall a, b, c {:trigger rules.samePath(a, b), rules.samePath(b, c)} ::
       rules.samePath(a, b) && rules.samePath(b, c) ==> rules.samePath(a, c))
  }

  /** The connection a profile or a request describes. */
  datatype Account = Account(protocol: string, host: string, port: int, username: string, keyPath: string)

  /** A stored profile; a protected blob is represented by the secret it holds. */
  datatype Profile = Profile(
    id: string, name: string, account: Account, password: Option<string>, passphrase: Option<string>,
    fingerprint: string, remotePath: string, localPath: string)

  datatype Input = Input(
    id: string, name: string, account: Account, password: string, clearPassword: bool, passphrase: string,
    clearPassphrase: bool,
    fingerprint: string, remotePath: string, localPath: string)

  // ----- Binding relations (internal/profilebinding) -----

  predicate SameEndpoint(rules: Rules, a: Account, b: Account)
  {
    rules.endpoint(a.protocol, a.host, a.port) == rules.endpoint(b.protocol, b.host, b.port)
  }

  predicate SameAccount(rules: Rules, a: Account, b: Account)
  {
    SameEndpoint(rules, a, b) && a.username == b.username
  }

  predicate Blank(rules: Rules, path: string)
  {
    rules.trim(path) == ""
  }

  predicate SameKey(rules: Rules, a: Account, b: Account)
  {
    !Blank(rules, a.keyPath) && !Blank(rules, b.keyPath) && SameAccount(rules, a, b) &&
    rules.samePath(rules.trim(a.keyPath), rules.trim(b.keyPath))
  }

  predicate SameSftpEndpoint(rules: Rules, a: Account, b: Account)
  {
    rules.isSftp(a.protocol) && rules.isSftp(b.protocol) && SameEndpoint(rules, a, b)
  }

  // ----- The history of accepted requests -----

  datatype Event =
    | Saved(id: string, input: Input)
    | Removed(id: string)
    | Trusted(id: string, account: Account, fingerprint: string)

  /** The three things a profile carries on behalf of its user. */
  datatype Kind = Password | Passphrase | Pin

  function Carried(kind: Kind, p: Profile): Option<string>
  {
    match kind
    case Password => p.password
    case Passphrase => p.passphrase
    case Pin => if p.fingerprint == "" then None else Some(p.fingerprint)
  }

  /** The request gives the profile this secret; a pin also by confirming the host key of the profile as it then was. */
  predicate Supplies(kind: Kind, e: Event, secret: string)
  {
    secret != "" &&
    match kind
    case Password => e.Saved? && !e.input.clearPassword && e.input.password == secret
    case Passphrase =>
      e.Saved? && !e.input.clearPassphrase && e.input.passphrase == secret &&
      e.input.account.protocol == "sftp" && e.input.account.keyPath != ""
    case Pin =>
      if e.Saved? then e.input.account.protocol == "sftp" && e.input.fingerprint == secret
      else e.Trusted? && e.fingerprint == secret
  }

  function SuppliedFor(e: Event): Account
  {
    match e
    case Saved(_, input) => input.account
    case Trusted(_, account, _) => account
    case Removed(_) => Account("", "", 0, "", "")
  }

  /** A secret supplied for `a` may be used for `b`. */
  predicate Binds(rules: Rules, kind: Kind, a: Account, b: Account)
  {
    match kind
    case Password => SameAccount(rules, a, b)
    case Passphrase => SameKey(rules, a, b)
    case Pin => SameSftpEndpoint(rules, a, b)
  }

  predicate Decides(kind: Kind, e: Event, id: string)
  {
    e.id == id && (e.Trusted? ==> kind.Pin?)
  }

  /**
   * The request leaves a secret supplied for account `a` in place: it is for a matching account and says nothing about
   * the secret.
   */
  predicate Keeps(rules: Rules, kind: Kind, a: Account, e: Event)
  {
    e.Saved? && Binds(rules, kind, a, e.input.account) && Silent(kind, e.input)
  }

  predicate Silent(kind: Kind, input: Input)
  {
    match kind
    case Password => !input.clearPassword && input.password == ""
    case Passphrase => !input.clearPassphrase && input.passphrase == "" && input.account.protocol == "sftp"
    case Pin => input.fingerprint == "" && input.account.protocol == "sftp"
  }

  /** Request `k` supplied this secret for `id`, and every later request about `id` kept it. */
  ghost predicate Since(rules: Rules, kind: Kind, events: seq<Event>, id: string, k: nat, secret: string)
  {
    k < |events| && events[k].id == id && Supplies(kind, events[k], secret) &&
    forall j :: k < j < |events| && Decides(kind, events[j], id) ==>
      Keeps(rules, kind, SuppliedFor(events[k]), events[j])
  }

  ghost predicate Held(rules: Rules, kind: Kind, events: seq<Event>, id: string, secret: string)
  {
    exists k: nat :: Since(rules, kind, events, id, k, secret)
  }

  /**
   * The secret supplied for `a` belongs to the stored account: they match, or it was supplied for this very account.
   */
  predicate Follows(rules: Rules, kind: Kind, a: Account, stored: Account)
  {
    Binds(rules, kind, a, stored) || (kind.Passphrase? && a == stored)
  }

  /** The profile carries exactly what its history entitles it to, and every supplier matches its account. */
  ghost predicate TracksKind(rules: Rules, kind: Kind, events: seq<Event>, p: Profile)
  {
    (forall secret {:trigger Held(rules, kind, events, p.id, secret)} ::
       Carried(kind, p) == Some(secret) <==> Held(rules, kind, events, p.id, secret)) &&
    forall k: nat, secret ::
      Since(rules, kind, events, p.id, k, secret) ==> Follows(rules, kind, SuppliedFor(events[k]), p.account)
  }

  ghost predicate Tracks(rules: Rules, events: seq<Event>, p: Profile)
  {
    forall kind :: TracksKind(rules, kind, events, p)
  }

  /** The history entitles `id` to nothing. */
  ghost predicate Gone(rules: Rules, events: seq<Event>, id: string)
  {
    forall kind, secret :: !Held(rules, kind, events, id, secret)
  }

  // ----- What one save stores -----

  /**
   * The new profile carries what the request supplies, else what the previous one carried if the accounts match, else
   * nothing.
   */
  ghost predicate StoresKind(rules: Rules, kind: Kind, previous: Option<Profile>, input: Input, x: Profile)
  {
    (forall secret {:trigger Supplies(kind, Saved(x.id, input), secret)} ::
       Supplies(kind, Saved(x.id, input), secret) ==> Carried(kind, x) == Some(secret)) &&
    (Carried(kind, x).None? || Supplies(kind, Saved(x.id, input), Carried(kind, x).value) ||
     (previous.Some? && Carried(kind, x) == Carried(kind, previous.value) &&
      Binds(rules, kind, previous.value.account, input.account) && Silent(kind, input))) &&
    (previous.Some? && Binds(rules, kind, previous.value.account, input.account) && Silent(kind, input) ==>
       Carried(kind, x) == Carried(kind, previous.value))
  }

  /** The stored account is the requested one; a key path is only stored for SFTP. */
  function StoredAccount(requested: Account): Account
  {
    if requested.protocol == "sftp" then requested else requested.(keyPath := "")
  }

  ghost predicate Stores(rules: Rules, previous: Option<Profile>, input: Input, x: Profile)
  {
    x.account == StoredAccount(input.account) && forall kind :: StoresKind(rules, kind, previous, input, x)
  }

  // ----- One more request -----

  lemma NextSince(rules: Rules, kind: Kind, events: seq<Event>, e: Event, id: string, k: nat, secret: string)
    ensures k < |events| ==>
              (Since(rules, kind, events + [e], id, k, secret) <==>
               Since(rules, kind, events, id, k, secret) &&
               (Decides(kind, e, id) ==> Keeps(rules, kind, SuppliedFor(events[k]), e)))
    ensures Since(rules, kind, events + [e], id, |events|, secret) <==> e.id == id && Supplies(kind, e, secret)
  {
    var all := events + [e];
    if k < |events| {
      assert all[|events|] == e && all[k] == events[k];
      if Since(rules, kind, all, id, k, secret) {
        forall j | k < j < |events| && Decides(kind, events[j], id)
          ensures Keeps(rules, kind, SuppliedFor(events[k]), events[j])
        {
          assert all[j] == events[j];
        }
      }
    }
  }

  /** A request that does not decide about a profile's secret leaves its entitlement alone. */
  lemma OtherHeld(rules: Rules, kind: Kind, events: seq<Event>, e: Event, id: string, secret: string)
    requires !Decides(kind, e, id)
    ensures Held(rules, kind, events + [e], id, secret) <==> Held(rules, kind, events, id, secret)
  {
    if k: nat :| Since(rules, kind, events + [e], id, k, secret) {
      NextSince(rules, kind, events, e, id, k, secret);
      assert Since(rules, kind, events, id, k, secret);
    }
    if k: nat :| Since(rules, kind, events, id, k, secret) {
      NextSince(rules, kind, events, e, id, k, secret);
      assert Since(rules, kind, events + [e], id, k, secret);
    }
  }

  lemma OtherKind(rules: Rules, kind: Kind, events: seq<Event>, e: Event, p: Profile)
    requires TracksKind(rules, kind, events, p) && !Decides(kind, e, p.id)
    ensures TracksKind(rules, kind, events + [e], p)
  {
    forall secret ensures Carried(kind, p) == Some(secret) <==> Held(rules, kind, events + [e], p.id, secret) {
      OtherHeld(rules, kind, events, e, p.id, secret);
    }
    forall k: nat, secret | Since(rules, kind, events + [e], p.id, k, secret)
      ensures Follows(rules, kind, SuppliedFor((events + [e])[k]), p.account)
    {
      NextSince(rules, kind, events, e, p.id, k, secret);
    }
  }

  /**
   * If a secret's supplier matches the stored account, it matches a further account exactly when the stored one does.
   */
  lemma BindsThrough(rules: Rules, kind: Kind, supplied: Account, stored: Account, next: Account)
    requires Lawful(rules) && Follows(rules, kind, supplied, stored)
    ensures Binds(rules, kind, supplied, next) <==> Binds(rules, kind, stored, next)
  {
  }

  lemma SavedKind(rules: Rules, kind: Kind, events: seq<Event>, previous: Option<Profile>, input: Input, x: Profile)
    requires Lawful(rules) && StoresKind(rules, kind, previous, input, x) && x.account == StoredAccount(input.account)
    requires match previous
             case Some(p) => p.id == x.id && TracksKind(rules, kind, events, p)
             case None => Gone(rules, events, x.id)
    ensures TracksKind(rules, kind, events + [Saved(x.id, input)], x)
  {
    var e := Saved(x.id, input);
    var after := events + [e];
    var kept := previous.Some? && Binds(rules, kind, previous.value.account, input.account) && Silent(kind, input);
    forall k: nat, secret | Since(rules, kind, after, x.id, k, secret)
      ensures Follows(rules, kind, SuppliedFor(after[k]), x.account)
      ensures Supplies(kind, e, secret) || (kept && Held(rules, kind, events, x.id, secret))
    {
      NextSince(rules, kind, events, e, x.id, k, secret);
      if k < |events| {
        assert Held(rules, kind, events, x.id, secret);
        BindsThrough(rules, kind, SuppliedFor(events[k]), previous.value.account, input.account);
      }
    }
    forall secret ensures Carried(kind, x) == Some(secret) <==> Held(rules, kind, after, x.id, secret) {
      if Supplies(kind, e, secret) {
        NextSince(rules, kind, events, e, x.id, |events|, secret);
      } else if kept && Held(rules, kind, events, x.id, secret) {
        var k: nat :| Since(rules, kind, events, x.id, k, secret);
        BindsThrough(rules, kind, SuppliedFor(events[k]), previous.value.account, input.account);
        NextSince(rules, kind, events, e, x.id, k, secret);
      }
    }
  }

  lemma TrustedKind(rules: Rules, kind: Kind, events: seq<Event>, p: Profile, pin: string)
    requires Lawful(rules) && TracksKind(rules, kind, events, p) && p.account.protocol == "sftp"
    ensures TracksKind(rules, kind, events + [Trusted(p.id, p.account, pin)], p.(fingerprint := pin))
  {
    var e := Trusted(p.id, p.account, pin);
    if kind.Pin? {
      var after := events + [e];
      forall k: nat, secret
        ensures Since(rules, kind, after, p.id, k, secret) <==> k == |events| && Supplies(kind, e, secret)
      {
        if k <= |events| { NextSince(rules, kind, events, e, p.id, k, secret); }
      }
      forall secret
        ensures Carried(kind, p.(fingerprint := pin)) == Some(secret) <==> Held(rules, kind, after, p.id, secret)
      {
        if secret == pin != "" { assert Since(rules, kind, after, p.id, |events|, secret); }
      }
    } else {
      OtherKind(rules, kind, events, e, p);
    }
  }

  lemma RemovedIsGone(rules: Rules, events: seq<Event>, id: string)
    ensures Gone(rules, events + [Removed(id)], id)
  {
    forall kind, k: nat, secret ensures !Since(rules, kind, events + [Removed(id)], id, k, secret) {
      if k <= |events| { NextSince(rules, kind, events, Removed(id), id, k, secret); }
    }
  }

  // ----- The profile list -----

  predicate ProperIds(items: seq<Profile>)
  {
    (forall i :: 0 <= i < |items| ==> items[i].id != "") &&
    forall i, j :: 0 <= i < j < |items| ==> items[i].id != items[j].id
  }

  /** Every listed profile tracks the history, and identifiers not in use are entitled to nothing. */
  ghost predicate Entitled(rules: Rules, events: seq<Event>, items: seq<Profile>)
  {
    (forall i :: 0 <= i < |items| ==> Tracks(rules, events, items[i])) &&
    forall id :: (forall i :: 0 <= i < |items| ==> items[i].id != id) ==> Gone(rules, events, id)
  }

  function DefaultRemoteStart(rules: Rules, protocol: string): string
  {
    if rules.isSftp(protocol) then "." else "/"
  }

  predicate NameOk(rules: Rules, name: string)
  {
    name != "" && rules.byteLength(name) <= 120 && forall ch :: ch in name ==> ch != '\0' && ch != '\r' && ch != '\n'
  }

  datatype PublicProfile = PublicProfile(
    id: string, name: string, account: Account, hasPassword: bool, hasPassphrase: bool, fingerprint: string,
    remotePath: string, localPath: string)

  function PublicOf(x: Profile): PublicProfile
  {
    PublicProfile(x.id, x.name, x.account, x.password.Some?, x.passphrase.Some?, x.fingerprint, x.remotePath,
                  x.localPath)
  }

  /** A request edits the profile with its trimmed identifier, or without one makes a new profile. */
  predicate IsTarget(rules: Rules, items: seq<Profile>, input: Input, at: Option<nat>)
  {
    match at
    case Some(i) => i < |items| && items[i].id == rules.trim(input.id) != ""
    case None => rules.trim(input.id) == ""
  }

  function PreviousOf(items: seq<Profile>, at: Option<nat>): Option<Profile>
    requires at.Some? ==> at.value < |items|
  {
    if at.Some? then Some(items[at.value]) else None
  }

  function Replaced(items: seq<Profile>, at: Option<nat>, x: Profile): seq<Profile>
    requires at.Some? ==> at.value < |items|
  {
    if at.Some? then items[at.value := x] else items + [x]
  }

  /**
   * The requested start path belongs to another account: it is the one the profile had, and the account is a different
   * one.
   */
  predicate StalePath(rules: Rules, previous: Option<Profile>, input: Input)
  {
    previous.Some? && !SameAccount(rules, previous.value.account, input.account) &&
    input.remotePath == previous.value.remotePath
  }

  /** An empty start path and one of another account are replaced by the protocol's default. */
  function StartPath(rules: Rules, previous: Option<Profile>, input: Input): string
  {
    if input.remotePath == "" || StalePath(rules, previous, input) then
      DefaultRemoteStart(rules, input.account.protocol)
    else input.remotePath
  }

  /** What the user gets to see: everything but the secrets, of which only the presence shows. */
  predicate Shows(shown: PublicProfile, x: Profile)
  {
    shown.id == x.id && shown.name == x.name && shown.account == x.account && shown.fingerprint == x.fingerprint &&
    shown.remotePath == x.remotePath && shown.localPath == x.localPath &&
    (shown.hasPassword <==> x.password != None) && (shown.hasPassphrase <==> x.passphrase != None)
  }

  /**
   * The start path. An empty one, and the old one under another endpoint or username, give way to "." for SFTP and "/"
   * otherwise; any other is stored as requested.
   */
  predicate KeepsPath(rules: Rules, previous: Option<Profile>, input: Input, x: Profile)
  {
    var to, from := input.account, if previous.Some? then previous.value.account else input.account;
    var start := if rules.isSftp(to.protocol) then "." else "/";
    var moved := rules.endpoint(from.protocol, from.host, from.port) != rules.endpoint(to.protocol, to.host, to.port) ||
                 from.username != to.username;
    var inherited := previous.Some? && moved && input.remotePath == previous.value.remotePath;
    (input.remotePath == "" ==> x.remotePath == start) &&
    (inherited ==> x.remotePath == start) &&
    (input.remotePath != "" && !inherited ==> x.remotePath == input.remotePath)
  }

  /**
   * What a profile keeps of the one it replaces: a password for the same endpoint and username, a passphrase only when
   * the key path matches as well, a pin for the same SFTP endpoint. What the request gives or clears comes first.
   */
  predicate KeepsSecrets(rules: Rules, previous: Option<Profile>, input: Input, x: Profile)
  {
    var to, sftp := input.account, input.account.protocol == "sftp";
    var from := if previous.Some? then previous.value.account else to;
    var same := rules.endpoint(from.protocol, from.host, from.port) == rules.endpoint(to.protocol, to.host, to.port);
    var endpoint := previous.Some? && same;
    var account := endpoint && from.username == to.username;
    var key := account && rules.trim(from.keyPath) != "" && rules.trim(to.keyPath) != "" &&
               rules.samePath(rules.trim(from.keyPath), rules.trim(to.keyPath));
    x.account == (if sftp then to else Account(to.protocol, to.host, to.port, to.username, "")) &&
    x.password == (if input.clearPassword then None
                   else if input.password != "" then Some(input.password)
                   else if account then previous.value.password else None) &&
    x.passphrase == (if !sftp || to.keyPath == "" || input.clearPassphrase then None
                     else if input.passphrase != "" then Some(input.passphrase)
                     else if key then previous.value.passphrase else None) &&
    x.fingerprint == (if !sftp then ""
                      else if input.fingerprint != "" then input.fingerprint
                      else if endpoint && rules.isSftp(from.protocol) then previous.value.fingerprint else "")
  }

  /** Every stored profile is in order, whatever it was before. */
  predicate StoredWell(rules: Rules, x: Profile)
  {
    x.name != "" && rules.byteLength(x.name) <= 120 && '\0' !in x.name && '\r' !in x.name && '\n' !in x.name &&
    rules.remotePathOk(x.remotePath) && rules.textOk(x.localPath) &&
    (x.account.keyPath == "" || rules.textOk(x.account.keyPath)) &&
    rules.connectionOk(x.account.protocol, x.account.host, x.account.username, x.account.port) &&
    (x.account.keyPath != "" || x.passphrase != None || x.fingerprint != "" ==> x.account.protocol == "sftp") &&
    (x.passphrase != None ==> x.account.keyPath != "")
  }

  /** The password a save leaves, read off what it promises about passwords. */
  lemma PasswordStored(rules: Rules, previous: Option<Profile>, input: Input, x: Profile)
    requires StoresKind(rules, Password, previous, input, x)
    ensures x.password == NextPassword(rules, previous, input)
  {
    if !input.clearPassword && input.password != "" {
      assert Supplies(Password, Saved(x.id, input), input.password);
    }
  }

  lemma PassphraseStored(rules: Rules, previous: Option<Profile>, input: Input, x: Profile)
    requires Lawful(rules) && StoresKind(rules, Passphrase, previous, input, x)
    ensures x.passphrase == NextPassphrase(rules, previous, input)
  {
    if !input.clearPassphrase && input.passphrase != "" && input.account.protocol == "sftp" &&
       input.account.keyPath != ""
    {
      assert Supplies(Passphrase, Saved(x.id, input), input.passphrase);
    }
  }

  lemma PinStored(rules: Rules, previous: Option<Profile>, input: Input, x: Profile)
    requires Lawful(rules) && StoresKind(rules, Pin, previous, input, x)
    ensures x.fingerprint == NextPin(rules, previous, input)
  {
    if input.fingerprint != "" && input.account.protocol == "sftp" {
      assert Supplies(Pin, Saved(x.id, input), input.fingerprint);
    }
  }

  lemma StoredAsAsked(rules: Rules, previous: Option<Profile>, input: Input, x: Profile)
    requires Lawful(rules) && Stores(rules, previous, input, x) && Acceptable(rules, previous, input)
    requires x.remotePath == StartPath(rules, previous, input) && x.name == rules.trim(input.name)
    requires x.localPath == input.localPath
    ensures KeepsPath(rules, previous, input, x) && KeepsSecrets(rules, previous, input, x) && StoredWell(rules, x)
  {
    PasswordStored(rules, previous, input, x);
    PassphraseStored(rules, previous, input, x);
    PinStored(rules, previous, input, x);
  }

  /** The list after an accepted save: one profile replaced or appended, under the identifier it had or a new one. */
  ghost predicate AfterSave(rules: Rules, before: seq<Profile>, after: seq<Profile>, input: Input, newId: string,
                            at: Option<nat>, x: Profile)
  {
    IsTarget(rules, before, input, at) &&
    x.id == (if at.Some? then before[at.value].id else newId) &&
    x.name == rules.trim(input.name) && x.localPath == input.localPath &&
    Stores(rules, PreviousOf(before, at), input, x) &&
    x.remotePath == StartPath(rules, PreviousOf(before, at), input) &&
    after == Replaced(before, at, x)
  }

  lemma GoneStays(rules: Rules, events: seq<Event>, e: Event, id: string)
    requires Gone(rules, events, id) && e.id != id
    ensures Gone(rules, events + [e], id)
  {
    forall kind, secret ensures !Held(rules, kind, events + [e], id, secret) {
      OtherHeld(rules, kind, events, e, id, secret);
    }
  }

  lemma OtherProfile(rules: Rules, events: seq<Event>, e: Event, p: Profile)
    requires Tracks(rules, events, p) && e.id != p.id
    ensures Tracks(rules, events + [e], p)
  {
    forall kind ensures TracksKind(rules, kind, events + [e], p) {
      OtherKind(rules, kind, events, e, p);
    }
  }

  /** One profile changes together with the history; the others are as they were. */
  lemma OneChanges(rules: Rules, events: seq<Event>, e: Event, before: seq<Profile>, at: Option<nat>, x: Profile)
    requires ProperIds(before) && Entitled(rules, events, before) && e.id == x.id != ""
    requires match at
             case Some(i) => i < |before| && before[i].id == x.id
             case None => forall i :: 0 <= i < |before| ==> before[i].id != x.id
    requires Tracks(rules, events + [e], x)
    ensures ProperIds(Replaced(before, at, x)) && Entitled(rules, events + [e], Replaced(before, at, x))
  {
    var after := Replaced(before, at, x);
    var place := if at.Some? then at.value else |before|;
    forall i | 0 <= i < |after| ensures Tracks(rules, events + [e], after[i]) {
      if i != place { OtherProfile(rules, events, e, before[i]); }
    }
    forall id | forall i :: 0 <= i < |after| ==> after[i].id != id ensures Gone(rules, events + [e], id) {
      assert after[place].id == x.id;
      forall i | 0 <= i < |before| ensures before[i].id != id {
        assert i != place ==> after[i] == before[i];
      }
      GoneStays(rules, events, e, id);
    }
  }

  lemma SaveIsEntitled(rules: Rules, events: seq<Event>, before: seq<Profile>, after: seq<Profile>, input: Input,
                       newId: string, at: Option<nat>, x: Profile)
    requires Lawful(rules) && ProperIds(before) && Entitled(rules, events, before)
    requires newId != "" && forall i :: 0 <= i < |before| ==> before[i].id != newId
    requires AfterSave(rules, before, after, input, newId, at, x)
    ensures ProperIds(after) && Entitled(rules, events + [Saved(x.id, input)], after)
  {
    forall kind ensures TracksKind(rules, kind, events + [Saved(x.id, input)], x) {
      if at.Some? {
        assert Tracks(rules, events, before[at.value]);
        assert TracksKind(rules, kind, events, before[at.value]);
      }
      SavedKind(rules, kind, events, PreviousOf(before, at), input, x);
    }
    OneChanges(rules, events, Saved(x.id, input), before, at, x);
  }

  lemma TrustIsEntitled(rules: Rules, events: seq<Event>, before: seq<Profile>, at: nat, pin: string)
    requires Lawful(rules) && ProperIds(before) && Entitled(rules, events, before)
    requires at < |before| && before[at].account.protocol == "sftp"
    ensures var p := before[at];
            ProperIds(before[at := p.(fingerprint := pin)]) &&
            Entitled(rules, events + [Trusted(p.id, p.account, pin)], before[at := p.(fingerprint := pin)])
  {
    var p := before[at];
    forall kind ensures TracksKind(rules, kind, events + [Trusted(p.id, p.account, pin)], p.(fingerprint := pin)) {
      assert Tracks(rules, events, p);
      TrustedKind(rules, kind, events, p, pin);
    }
    OneChanges(rules, events, Trusted(p.id, p.account, pin), before, Some(at), p.(fingerprint := pin));
  }

  function Without(items: seq<Profile>, id: string): seq<Profile>
  {
    if items == [] then []
    else
      var rest := Without(items[..|items| - 1], id);
      var last := items[|items| - 1];
      if last.id == id then rest else rest + [last]
  }

  /** Exactly the other profiles remain, under proper identifiers. */
  lemma {:induction false} WithoutKeepsOthers(items: seq<Profile>, id: string)
    ensures forall p :: p in Without(items, id) <==> p in items && p.id != id
    ensures ProperIds(items) ==> ProperIds(Without(items, id))
    decreases |items|
  {
    if items != [] {
      var n := |items| - 1;
      WithoutKeepsOthers(items[..n], id);
      assert items == items[..n] + [items[n]];
    }
  }

  /** Under proper identifiers one profile goes and the order of the others stays. */
  lemma {:induction false} WithoutCutsOne(items: seq<Profile>, i: nat)
    requires ProperIds(items) && i < |items|
    ensures Without(items, items[i].id) == items[..i] + items[i + 1..]
    decreases |items|
  {
    var n := |items| - 1;
    if i == n {
      WithoutNone(items[..n], items[n].id);
      assert items[i + 1..] == [];
    } else {
      WithoutCutsOne(items[..n], i);
      assert items[..n][..i] == items[..i] && items[..n][i + 1..] + [items[n]] == items[i + 1..];
    }
  }

  lemma {:induction false} WithoutNone(items: seq<Profile>, id: string)
    requires forall p :: p in items ==> p.id != id
    ensures Without(items, id) == items
    decreases |items|
  {
    if items != [] {
      var n := |items| - 1;
      WithoutNone(items[..n], id);
      assert items == items[..n] + [items[n]];
    }
  }

  /** One profile of this identifier is gone, the others are as they were. */
  predicate OneCut(before: seq<Profile>, after: seq<Profile>, id: string, i: nat)
  {
    i < |before| && before[i].id == id && after == before[..i] + before[i + 1..]
  }

  lemma RemovalIsEntitled(rules: Rules, events: seq<Event>, before: seq<Profile>, id: string)
    requires Entitled(rules, events, before) && ProperIds(before)
    ensures ProperIds(Without(before, id)) && Entitled(rules, events + [Removed(id)], Without(before, id))
  {
    var after := Without(before, id);
    WithoutKeepsOthers(before, id);
    forall i | 0 <= i < |after| ensures Tracks(rules, events + [Removed(id)], after[i]) {
      assert after[i] in before;
      OtherProfile(rules, events, Removed(id), after[i]);
    }
    forall other | forall i :: 0 <= i < |after| ==> after[i].id != other
      ensures Gone(rules, events + [Removed(id)], other)
    {
      if other == id {
        RemovedIsGone(rules, events, id);
      } else {
        forall i | 0 <= i < |before| ensures before[i].id != other {
          assert before[i] in after || before[i].id == id;
        }
        GoneStays(rules, events, Removed(id), other);
      }
    }
  }

  function NextPassword(rules: Rules, previous: Option<Profile>, input: Input): Option<string>
  {
    if input.clearPassword then None
    else if input.password != "" then Some(input.password)
    else if previous.Some? && SameAccount(rules, previous.value.account, input.account) then previous.value.password
    else None
  }

  function NextPassphrase(rules: Rules, previous: Option<Profile>, input: Input): Option<string>
  {
    if input.clearPassphrase || input.account.protocol != "sftp" || input.account.keyPath == "" then None
    else if input.passphrase != "" then Some(input.passphrase)
    else if previous.Some? && SameKey(rules, previous.value.account, input.account) then previous.value.passphrase
    else None
  }

  function NextPin(rules: Rules, previous: Option<Profile>, input: Input): string
  {
    if input.account.protocol != "sftp" then ""
    else if input.fingerprint != "" then input.fingerprint
    else if previous.Some? && SameSftpEndpoint(rules, previous.value.account, input.account) then
      previous.value.fingerprint
    else ""
  }

  lemma SecretsAreStored(rules: Rules, previous: Option<Profile>, input: Input, x: Profile)
    requires Lawful(rules)
    requires x.password == NextPassword(rules, previous, input) &&
             x.passphrase == NextPassphrase(rules, previous, input) &&
             x.fingerprint == NextPin(rules, previous, input)
    ensures forall kind :: StoresKind(rules, kind, previous, input, x)
  {
    assert StoresKind(rules, Password, previous, input, x);
    assert StoresKind(rules, Passphrase, previous, input, x);
    assert StoresKind(rules, Pin, previous, input, x);
  }

  /** All profiles but the one with this identifier, and whether there is one. */
  method Others(items: seq<Profile>, id: string) returns (out: seq<Profile>, found: bool)
    ensures out == Without(items, id) && (found <==> Has(items, |items|, id))
  {
    out, found := [], false;
    var i := 0;
    while i < |items|
      invariant i <= |items| && out == Without(items[..i], id)
      invariant found <==> Has(items, i, id)
    {
      WithoutNext(items, i, id);
      if items[i].id == id { found := true; } else { out := out + [items[i]]; }
      i := i + 1;
    }
    assert items[..i] == items;
  }

  /** One of the first `n` profiles has this identifier. */
  predicate Has(items: seq<Profile>, n: nat, id: string)
    requires n <= |items|
  {
    exists k :: 0 <= k < n && items[k].id == id
  }

  lemma WithoutNext(items: seq<Profile>, i: nat, id: string)
    requires i < |items|
    ensures Without(items[..i + 1], id) == Without(items[..i], id) + (if items[i].id == id then [] else [items[i]])
    ensures Has(items, i + 1, id) <==> Has(items, i, id) || items[i].id == id
  {
    assert items[..i + 1][..i] == items[..i];
  }

  /** The stored profiles. Loading and storing may fail; a store that reports failure may still have taken effect. */
  class Profiles {
    const rules: Rules
    var items: seq<Profile>
    ghost var events: seq<Event>  // the requests that took effect
    const reliable: bool          // loading, protecting and storing work

    constructor (rules: Rules, reliable: bool)
      requires Lawful(rules)
      ensures Valid() && items == [] && this.rules == rules && this.reliable == reliable
    {
      this.rules, this.reliable := rules, reliable;
      items := [];
      events := [];
    }

    ghost predicate Valid()
      reads this
    {
      Lawful(rules) && ProperIds(items) && Entitled(rules, events, items)
    }

    method Fails() returns (failed: bool)
      ensures reliable ==> !failed
    {
      failed := *;
      failed := failed && !reliable;
    }

    method SaveAll(next: seq<Profile>, ghost e: Event) returns (ok: bool)
      modifies this`items, this`events
      ensures (items == next && events == old(events) + [e]) || (!ok && items == old(items) && events == old(events))
      ensures reliable ==> ok
    {
      ok := true;
      var failed := Fails();
      if failed {
        ok := false;
        failed := Fails();
        if failed { return; }
      }
      items := next;
      events := events + [e];
    }

    method Find(id: string) returns (at: Option<nat>)
      ensures match at
              case Some(i) => i < |items| && items[i].id == id
              case None => forall i :: 0 <= i < |items| ==> items[i].id != id
    {
      var i := 0;
      while i < |items|
        invariant i <= |items| && forall j :: 0 <= j < i ==> items[j].id != id
      {
        if items[i].id == id { return Some(i); }
        i := i + 1;
      }
      return None;
    }

    method ChoosePath(previous: Option<Profile>, input: Input) returns (remotePath: string)
      ensures remotePath == StartPath(rules, previous, input)
    {
      remotePath := input.remotePath;
      if remotePath == "" { remotePath := DefaultRemoteStart(rules, input.account.protocol); }
      if previous.Some? && !SameAccount(rules, previous.value.account, input.account) &&
         remotePath == previous.value.remotePath
      {
        remotePath := DefaultRemoteStart(rules, input.account.protocol);
      }
    }

    method EditPin(previous: Option<Profile>, input: Input) returns (fingerprint: string)
      ensures fingerprint == NextPin(rules, previous, input)
    {
      fingerprint := if previous.Some? then previous.value.fingerprint else "";
      if input.account.protocol != "sftp" {
        fingerprint := "";
      } else if input.fingerprint != "" {
        fingerprint := input.fingerprint;
      } else if previous.Some? && SameSftpEndpoint(rules, previous.value.account, input.account) {
        fingerprint := previous.value.fingerprint;
      } else {
        fingerprint := "";
      }
    }

    method EditPassword(previous: Option<Profile>, input: Input) returns (r: Result<Option<string>, string>)
      ensures r.Ok? ==> r.value == NextPassword(rules, previous, input)
      ensures r.Ok? && input.password != "" && !input.clearPassword ==> rules.secretOk(input.password)
      ensures reliable && (input.password != "" && !input.clearPassword ==> rules.secretOk(input.password)) ==> r.Ok?
    {
      var blob := if previous.Some? then previous.value.password else None;
      if previous.Some? && !SameAccount(rules, previous.value.account, input.account) { blob := None; }
      if input.clearPassword {
        blob := None;
      } else if input.password != "" {
        if !rules.secretOk(input.password) { return Err("password"); }
        var failed := Fails();
        if failed { return Err("protect"); }
        blob := Some(input.password);
      }
      return Ok(blob);
    }

    method EditPassphrase(previous: Option<Profile>, input: Input) returns (r: Result<Option<string>, string>)
      ensures r.Ok? ==> r.value == NextPassphrase(rules, previous, input)
      ensures r.Ok? && input.passphrase != "" && !input.clearPassphrase ==> rules.secretOk(input.passphrase)
      ensures reliable && (input.passphrase != "" && !input.clearPassphrase ==> rules.secretOk(input.passphrase)) ==>
                r.Ok?
    {
      var blob := if previous.Some? then previous.value.passphrase else None;
      if previous.Some? && !SameKey(rules, previous.value.account, input.account) { blob := None; }
      if input.clearPassphrase {
        blob := None;
      } else if input.passphrase != "" {
        if !rules.secretOk(input.passphrase) { return Err("passphrase"); }
        var failed := Fails();
        if failed { return Err("protect"); }
        blob := Some(input.passphrase);
      }
      if input.account.protocol == "sftp" && input.account.keyPath == "" { blob := None; }
      if input.account.protocol != "sftp" { blob := None; }
      return Ok(blob);
    }

    /** The part of `Save` between finding the profile and storing the list. */
    method Edit(previous: Option<Profile>, input: Input, newId: string) returns (r: Result<Profile, string>)
      requires Lawful(rules)
      ensures r.Ok? ==> Acceptable(rules, previous, input) && Stores(rules, previous, input, r.value)
      ensures r.Ok? ==> r.value.remotePath == StartPath(rules, previous, input)
      ensures reliable && Acceptable(rules, previous, input) ==> r.Ok?
      ensures r.Ok? ==> KeepsPath(rules, previous, input, r.value) && KeepsSecrets(rules, previous, input, r.value)
      ensures r.Ok? ==> StoredWell(rules, r.value)
      ensures r.Ok? ==>
                r.value.id == (if previous.Some? then previous.value.id else newId) &&
                r.value.name == rules.trim(input.name) && r.value.localPath == input.localPath
    {
      var account := input.account;
      var name := rules.trim(input.name);
      var remotePath := ChoosePath(previous, input);
      if !NameOk(rules, name) || !rules.remotePathOk(remotePath) || !rules.textOk(input.localPath) ||
         !rules.textOk(account.keyPath)
      {
        return Err("field");
      }
      if input.fingerprint != "" && !rules.fingerprintOk(input.fingerprint) { return Err("fingerprint"); }
      if !rules.connectionOk(account.protocol, account.host, account.username, account.port) {
        return Err("connection");
      }
      var fingerprint := EditPin(previous, input);
      if account.protocol == "sftp" && account.keyPath == "" && input.passphrase != "" {
        return Err("passphrase without key");
      }
      var password := EditPassword(previous, input);
      if password.Err? { return Err(password.error); }
      var passphrase := EditPassphrase(previous, input);
      if passphrase.Err? { return Err(passphrase.error); }
      if account.protocol != "sftp" { account := account.(keyPath := ""); }
      var x := Profile(if previous.Some? then previous.value.id else newId, name, account, password.value,
                       passphrase.value, fingerprint, remotePath, input.localPath);
      SecretsAreStored(rules, previous, input, x);
      StoredAsAsked(rules, previous, input, x);
      return Ok(x);
    }

    /** `Save`. A new profile gets the random identifier `newId`. */
    method Save(input: Input, newId: string) returns (r: Result<PublicProfile, string>)
      requires Valid() && newId != "" && forall i :: 0 <= i < |items| ==> items[i].id != newId
      modifies this`items, this`events
      ensures Valid()
      ensures (items == old(items) && events == old(events)) ||
              exists at, x ::
                AfterSave(rules, old(items), items, input, newId, at, x) && events == old(events) + [Saved(x.id, input)]
      ensures r.Ok? ==>
                exists at, x ::
                  AfterSave(rules, old(items), items, input, newId, at, x) && Shows(r.value, x) &&
                  StoredWell(rules, x) && KeepsPath(rules, PreviousOf(old(items), at), input, x) &&
                  KeepsSecrets(rules, PreviousOf(old(items), at), input, x)
      ensures r.Ok? ==>
                exists at ::
                  IsTarget(rules, old(items), input, at) && Acceptable(rules, PreviousOf(old(items), at), input)
      ensures reliable ==>
                (r.Ok? <==>
                 exists at ::
                   IsTarget(rules, old(items), input, at) && Acceptable(rules, PreviousOf(old(items), at), input))
    {
      var failed := Fails();
      if failed { return Err("load"); }
      var id := rules.trim(input.id);
      var at: Option<nat> := None;
      if id != "" {
        at := Find(id);
        if at.None? { return Err("not found"); }
      }
      var edited := Edit(PreviousOf(items, at), input, newId);
      if edited.Err? { return Err(edited.error); }
      var x := edited.value;
      ghost var before, history := items, events;
      assert AfterSave(rules, before, Replaced(before, at, x), input, newId, at, x);
      SaveIsEntitled(rules, history, before, Replaced(before, at, x), input, newId, at, x);
      var ok := SaveAll(Replaced(items, at, x), Saved(x.id, input));
      if !ok { return Err("store"); }
      return Ok(PublicOf(x));
    }

    /** `Remove`. */
    method Remove(id: string) returns (ok: bool)
      requires Valid()
      modifies this`items, this`events
      ensures Valid()
      ensures (items == old(items) && events == old(events)) ||
              (items == Without(old(items), id) && events == old(events) + [Removed(id)])
      ensures ok ==> exists i: nat :: OneCut(old(items), items, id, i)
      ensures reliable ==> (ok <==> exists i :: 0 <= i < |old(items)| && old(items)[i].id == id)
    {
      var failed := Fails();
      if failed { return false; }
      var out, found := Others(items, id);
      if !found { return false; }
      RemovalIsEntitled(rules, events, items, id);
      ghost var at :| 0 <= at < |items| && items[at].id == id;
      WithoutCutsOne(items, at);
      assert OneCut(items, out, id, at);
      ok := SaveAll(out, Removed(id));
    }

    /** `UpdateFingerprint`. */
    method UpdateFingerprint(id: string, pin: string) returns (ok: bool)
      requires Valid()
      modifies this`items, this`events
      ensures Valid()
      ensures (items == old(items) && events == old(events)) ||
              exists i: nat ::
                PinUpdated(old(items), items, i, id, pin) &&
                events == old(events) + [Trusted(id, items[i].account, pin)]
      ensures ok ==> rules.fingerprintOk(pin) && exists i: nat :: PinUpdated(old(items), items, i, id, pin)
      ensures reliable && rules.fingerprintOk(pin) &&
              (exists p :: p in old(items) && p.id == id && p.account.protocol == "sftp") ==>
                ok
    {
      var failed := Fails();
      if failed { return false; }
      if !rules.fingerprintOk(pin) { return false; }
      var at := Find(id);
      if at.None? { return false; }
      var p := items[at.value];
      if p.account.protocol != "sftp" { return false; }
      TrustIsEntitled(rules, events, items, at.value, pin);
      ok := SaveAll(items[at.value := p.(fingerprint := pin)], Trusted(p.id, p.account, pin));
      assert items != old(items) || ok ==> PinUpdated(old(items), items, at.value, id, pin);
    }
  }

  predicate PinUpdated(before: seq<Profile>, after: seq<Profile>, i: nat, id: string, pin: string)
  {
    i < |before| && before[i].id == id && before[i].account.protocol == "sftp" &&
    after == before[i := before[i].(fingerprint := pin)]
  }

  /**
   * A request is accepted exactly when the fields the profile would get are in order, and so is every secret and pin it
   * brings; a passphrase for SFTP comes with a key.
   */
  lemma AcceptedExactly(rules: Rules, previous: Option<Profile>, input: Input, x: Profile)
    requires KeepsPath(rules, previous, input, x) && x.name == rules.trim(input.name) && x.localPath == input.localPath
    ensures Acceptable(rules, previous, input) <==>
            x.name != "" && rules.byteLength(x.name) <= 120 && '\0' !in x.name && '\r' !in x.name && '\n' !in x.name &&
            rules.remotePathOk(x.remotePath) && rules.textOk(x.localPath) && rules.textOk(input.account.keyPath) &&
            rules.connectionOk(input.account.protocol, input.account.host, input.account.username,
                               input.account.port) &&
            (input.fingerprint == "" || rules.fingerprintOk(input.fingerprint)) &&
            (input.clearPassword || input.password == "" || rules.secretOk(input.password)) &&
            (input.clearPassphrase || input.passphrase == "" || rules.secretOk(input.passphrase)) &&
            (input.account.protocol != "sftp" || input.account.keyPath != "" || input.passphrase == "")
  {
  }

  /** What a request must satisfy to be accepted. */
  predicate Acceptable(rules: Rules, previous: Option<Profile>, input: Input)
  {
    NameOk(rules, rules.trim(input.name)) && rules.remotePathOk(StartPath(rules, previous, input)) &&
    rules.textOk(input.localPath) && rules.textOk(input.account.keyPath) &&
    rules.connectionOk(input.account.protocol, input.account.host, input.account.username, input.account.port) &&
    (input.fingerprint != "" ==> rules.fingerprintOk(input.fingerprint)) &&
    (input.password != "" && !input.clearPassword ==> rules.secretOk(input.password)) &&
    (input.passphrase != "" && !input.clearPassphrase ==> rules.secretOk(input.passphrase)) &&
    !(input.account.protocol == "sftp" && input.account.keyPath == "" && input.passphrase != "")
  }

  // ----- Main results -----

  /**
   * Some request supplied this for an account matching the profile's, and every later request about the profile kept
   * it.
   */
  ghost predicate Justified(rules: Rules, kind: Kind, events: seq<Event>, p: Profile, secret: string)
  {
    exists k: nat ::
      Since(rules, kind, events, p.id, k, secret) && Binds(rules, kind, SuppliedFor(events[k]), p.account)
  }

  /** After any run, a stored password was supplied for a matching account, and not touched since. */
  lemma PasswordFollowsAccount(rules: Rules, events: seq<Event>, items: seq<Profile>, i: nat)
    requires Lawful(rules) && Entitled(rules, events, items) && i < |items| && items[i].password.Some?
    ensures Justified(rules, Password, events, items[i], items[i].password.value)
  {
    assert TracksKind(rules, Password, events, items[i]);
    assert Carried(Password, items[i]) == Some(items[i].password.value);
    assert Held(rules, Password, events, items[i].id, items[i].password.value);
  }

  /**
   * After any run, a stored passphrase was supplied for a matching account, and for a matching key exactly unless the
   * path is blank.
   */
  lemma PassphraseFollowsKey(rules: Rules, events: seq<Event>, items: seq<Profile>, i: nat)
    requires Lawful(rules) && Entitled(rules, events, items) && i < |items| && items[i].passphrase.Some?
    ensures exists k: nat ::
              Since(rules, Passphrase, events, items[i].id, k, items[i].passphrase.value) &&
              SameAccount(rules, SuppliedFor(events[k]), items[i].account) &&
              (SameKey(rules, SuppliedFor(events[k]), items[i].account) <==> !Blank(rules, items[i].account.keyPath))
  {
    assert TracksKind(rules, Passphrase, events, items[i]);
    assert Carried(Passphrase, items[i]) == Some(items[i].passphrase.value);
    assert Held(rules, Passphrase, events, items[i].id, items[i].passphrase.value);
  }

  /** After any run, a pin was given by the user for a matching endpoint, and not replaced since. */
  lemma PinFollowsEndpoint(rules: Rules, events: seq<Event>, items: seq<Profile>, i: nat)
    requires Lawful(rules) && Entitled(rules, events, items) && i < |items| && items[i].fingerprint != ""
    ensures Justified(rules, Pin, events, items[i], items[i].fingerprint)
  {
    assert TracksKind(rules, Pin, events, items[i]);
    assert Carried(Pin, items[i]) == Some(items[i].fingerprint);
    assert Held(rules, Pin, events, items[i].id, items[i].fingerprint);
    var k: nat :| Since(rules, Pin, events, items[i].id, k, items[i].fingerprint);
    assert Follows(rules, Pin, SuppliedFor(events[k]), items[i].account);
  }

  /** Nothing is dropped needlessly either: a secret supplied and kept by every later request is still there. */
  lemma KeptSecretsRemain(rules: Rules, events: seq<Event>, items: seq<Profile>, i: nat, kind: Kind, k: nat,
                          secret: string)
    requires Entitled(rules, events, items) && i < |items| && Since(rules, kind, events, items[i].id, k, secret)
    ensures Carried(kind, items[i]) == Some(secret)
  {
    assert TracksKind(rules, kind, events, items[i]);
    assert Held(rules, kind, events, items[i].id, secret);
  }

  /**
   * Whatever the rules, a passphrase sent with a key path of white space is stored, although that path matches no key.
   */
  lemma BlankKeyHoldsPassphrase(rules: Rules, before: seq<Profile>, after: seq<Profile>, input: Input, newId: string,
                                at: Option<nat>, x: Profile)
    requires AfterSave(rules, before, after, input, newId, at, x)
    requires input.account.protocol == "sftp" && input.account.keyPath != "" && Blank(rules, input.account.keyPath)
    requires input.passphrase != "" && !input.clearPassphrase
    ensures x in after && x.passphrase == Some(input.passphrase) && x.account == input.account
    ensures forall a: Account :: !SameKey(rules, a, x.account)
  {
    assert Supplies(Passphrase, Saved(x.id, input), input.passphrase);
    assert StoresKind(rules, Passphrase, PreviousOf(before, at), input, x);
    assert Carried(Passphrase, x) == Some(input.passphrase);
    assert Replaced(before, at, x)[if at.Some? then at.value else |before|] == x;
  }

  /** Rules where only a few strings matter. */
  function PlainRules(): Rules
  {
    Rules((s: string) => if s == " " then "" else s,
          (protocol: string, host: string, port: int) => protocol + "/" + host,
          (s: string) => s == "sftp",
          (a: string, b: string) => a == b,
          (protocol: string, host: string, user: string, port: int) => true,
          (s: string) => true, (s: string) => true, (s: string) => true, (s: string) => true, (s: string) => |s|)
  }

  /** Such a request is accepted. */
  lemma BlankKeyIsAccepted()
    ensures Lawful(PlainRules())
    ensures var account := Account("sftp", "h", 22, "u", " ");
            var input := Input("", "n", account, "", false, "p", false, "", "", "");
            var x := Profile("1", "n", account, None, Some("p"), "", ".", "");
            Blank(PlainRules(), account.keyPath) && Acceptable(PlainRules(), None, input) &&
            AfterSave(PlainRules(), [], [x], input, "1", None, x)
  {
    var account := Account("sftp", "h", 22, "u", " ");
    var input := Input("", "n", account, "", false, "p", false, "", "", "");
    var x := Profile("1", "n", account, None, Some("p"), "", ".", "");
    assert StoresKind(PlainRules(), Password, None, input, x);
    assert StoresKind(PlainRules(), Passphrase, None, input, x);
    assert StoresKind(PlainRules(), Pin, None, input, x);
    assert Replaced([], None, x) == [x];
  }
}
