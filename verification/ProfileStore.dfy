/**
 * Where the profile list lives on disk: the protected envelope in the state store, and the one-time migration of the
 * plain legacy file (internal/config/profiles.go, `loadSecure`, `load`, `saveAll`, `removeLegacyProfileFiles`).
 */
module ProfileStore {
  import opened Wrappers
  import opened Bytes
  import opened StateStore
  import P = Profiles

  const SECURE := "profiles.secure.json"
  const LEGACY := "profiles.json"

  type Items = seq<P.Profile>

  datatype Envelope = Envelope(version: int, sealed: string)

  /** JSON for both files, and the sealing of a list; `seal` takes the randomness it uses. */
  datatype Vault = Vault(
    envelopes: Codec<Envelope>, lists: Codec<Items>, seal: (Items, nat) -> string, unseal: string -> Option<Items>,
    outdated: string -> bool)

  ghost predicate LawfulVault(v: Vault)
  {
    Lawful(v.envelopes) && Lawful(v.lists) &&
    forall items, nonce {:trigger v.seal(items, nonce)} ::
      v.seal(items, nonce) != "" && v.unseal(v.seal(items, nonce)) == Some(items) && !v.outdated(v.seal(items, nonce))
  }

  function Sealed(v: Vault, items: Items, nonce: nat): Envelope
  {
    Envelope(1, v.seal(items, nonce))
  }

  /** The length the store compares with its limit. */
  function EnvelopeSize(v: Vault, items: Items, nonce: nat): nat
  {
    |v.envelopes.encode(Sealed(v, items, nonce))|
  }

  lemma NamesAreValid()
    ensures ValidStateName(SECURE) && ValidStateName(LEGACY) && SECURE != LEGACY
  {
    assert SECURE[9] == 's' && LEGACY[9] == 'j';
  }

  // ----- What loading finds -----

  datatype Reading = Found(items: Items) | Absent | Broken

  function Unsealed(v: Vault, e: Envelope): Reading
  {
    if e.version == 1 && v.unseal(e.sealed).Some? then Found(v.unseal(e.sealed).value) else Broken
  }

  function SecureReading(v: Vault, files: Files): Reading
  {
    var e := ReadFiles(v.envelopes, files, SECURE);
    if e.None? || e.value.sealed == "" then
      if Entry(files, Current(SECURE)).None? && Entry(files, Previous(SECURE)).None? then Absent else Broken
    else Unsealed(v, e.value)
  }

  /**
   * A list is only found in an envelope of version 1 whose seal opens to it; there is no secure list only where neither
   * generation of the file is there. Everything else is refused.
   */
  lemma SecureReadingMeans(v: Vault, files: Files, items: Items)
    ensures var e := ReadFiles(v.envelopes, files, "profiles.secure.json");
            (SecureReading(v, files) == Found(items) <==>
             e.Some? && e.value.version == 1 && e.value.sealed != "" && v.unseal(e.value.sealed) == Some(items)) &&
            (SecureReading(v, files) == Absent <==>
             (e == None || e.value.sealed == "") && Entry(files, Current("profiles.secure.json")) == None &&
             Entry(files, Previous("profiles.secure.json")) == None)
  {
  }

  function LegacyReading(v: Vault, files: Files): Items
  {
    var r := ReadFiles(v.lists, files, LEGACY);
    if r.Some? then r.value else []
  }

  /** What `load` returns on these files: the secure list, or without any secure file the legacy one. */
  function LoadReading(v: Vault, files: Files): Reading
  {
    if SecureReading(v, files).Absent? then Found(LegacyReading(v, files)) else SecureReading(v, files)
  }

  /** After any crash of this disk, loading finds this list. */
  ghost predicate Recovers(v: Vault, d: Disk, items: Items)
  {
    forall m :: CrashImage(d, m) ==> LoadReading(v, m) == Found(items)
  }

  ghost predicate TrailRecovers(v: Vault, items: Items, before: seq<Disk>, after: seq<Disk>)
  {
    before <= after && forall i :: |before| <= i < |after| ==> Recovers(v, after[i], items)
  }

  /** A settled legacy list and no trace of a secure one. */
  ghost predicate Migratable(v: Vault, d: Disk, items: Items)
  {
    items != [] && Settled(ViewOf(d, LEGACY)) && ReadFiles(v.lists, d.live, LEGACY) == Some(items) &&
    ViewOf(d, SECURE) == View(None, None, None, None)
  }

  // ----- What a load does to a migratable directory -----

  /** What a load saw of the legacy file: nothing, because it stopped before, or a list it then acted on. */
  datatype Look = Unread | Seen(items: Items)

  /** The new file is written as `Write` promises, and the legacy file only changes once that is durable. */
  ghost predicate Storing(v: Vault, d0: Disk, e: Envelope, d: Disk)
  {
    Pieces(v.envelopes, ViewOf(d0, SECURE), ViewOf(d, SECURE), e) &&
    (OthersKept(d0, d, SECURE) || Activated(v, e, ViewOf(d, SECURE)))
  }

  /** The envelope is the live and the durable generation. */
  predicate Activated(v: Vault, e: Envelope, w: View)
  {
    w.current == Generation(v.envelopes.encode(e) + [10]) && w.durableCurrent == w.current
  }

  /** Some legacy generations were removed, without a sync; the secure ones are as they were. */
  predicate Erased(before: Disk, after: Disk)
  {
    var a, b := ViewOf(before, LEGACY), ViewOf(after, LEGACY);
    ViewOf(after, SECURE) == ViewOf(before, SECURE) &&
    (b.current == a.current || b.current == None) && (b.previous == a.previous || b.previous == None) &&
    b.durableCurrent == a.durableCurrent && b.durablePrevious == a.durablePrevious
  }

  /** Every point of a load that saw `look` and, to store a list, used `nonce`. */
  ghost predicate Loading(v: Vault, d0: Disk, look: Look, nonce: nat, d: Disk)
  {
    match look
    case Unread => false
    case Seen(items) => if items == [] then Erased(d0, d) else Storing(v, d0, Sealed(v, items, nonce), d)
  }

  ghost predicate LoadingTrail(v: Vault, d0: Disk, look: Look, nonce: nat, before: seq<Disk>, after: seq<Disk>)
  {
    before <= after && forall i :: |before| <= i < |after| ==> Loading(v, d0, look, nonce, after[i])
  }

  /** The load acted on the list that is there, and its envelope can be read back. */
  predicate Faithful(v: Vault, items: Items, look: Look, nonce: nat)
  {
    look == Seen(items) && EnvelopeSize(v, items, nonce) < MAX_STATE_SIZE
  }

  /** What keeps the list at a point of a load: a faithful look, or nothing of its effect being there yet. */
  predicate Kept(v: Vault, items: Items, look: Look, nonce: nat, d: Disk)
  {
    Faithful(v, items, look, nonce) ||
    if look == Seen([]) then LegacyReading(v, d.live) == items else ViewOf(d, SECURE) == View(None, None, None, None)
  }

  // ----- Crashes during migration -----

  /**
   * Reading the secure file when its current generation is an envelope and there is no other: exactly below the limit
   * it is read back.
   */
  lemma EnvelopeReadsBack(v: Vault, files: Files, items: Items, nonce: nat)
    requires LawfulVault(v) && Entry(files, Previous(SECURE)) == None
    requires Entry(files, Current(SECURE)) == Generation(v.envelopes.encode(Sealed(v, items, nonce)) + [10])
    ensures LoadReading(v, files) == if EnvelopeSize(v, items, nonce) < MAX_STATE_SIZE then Found(items) else Broken
  {
  }

  lemma LegacySurvives(v: Vault, d0: Disk, d: Disk, items: Items, m: Files)
    requires Migratable(v, d0, items) && OthersKept(d0, d, SECURE) && CrashImage(d, m)
    ensures LegacyReading(v, m) == items
  {
    NamesAreValid();
    assert ViewOf(d, LEGACY) == ViewOf(d0, LEGACY);
    CrashIsOutcome(v.lists, d, m, LEGACY);
    SettledReads(v.lists, ViewOf(d0, LEGACY), ReadFiles(v.lists, m, LEGACY));
  }

  /** While a list is stored the secure file is, after any crash, either not there or the complete envelope. */
  lemma SecureAfterCrash(v: Vault, d0: Disk, d: Disk, items: Items, e: Envelope, m: Files)
    requires Migratable(v, d0, items) && Storing(v, d0, e, d) && CrashImage(d, m)
    ensures Entry(m, Previous(SECURE)) == None
    ensures Entry(m, Current(SECURE)) == None || Entry(m, Current(SECURE)) == Generation(v.envelopes.encode(e) + [10])
    ensures Entry(m, Current(SECURE)) == None ==> OthersKept(d0, d, SECURE)
  {
    var w := ViewOf(d, SECURE);
    assert w.previous == None && w.durablePrevious == None;
    assert Survives(w.current, Entry(m, Current(SECURE))) || Survives(w.durableCurrent, Entry(m, Current(SECURE)));
    assert Survives(w.previous, Entry(m, Previous(SECURE))) || Survives(w.durablePrevious, Entry(m, Previous(SECURE)));
  }

  /**
   * As long as the seen list is the right one and its envelope is below the limit, or nothing of the envelope shows,
   * nothing is lost.
   */
  lemma KeptRecovers(v: Vault, d0: Disk, d: Disk, items: Items, seen: Items, nonce: nat)
    requires LawfulVault(v) && Migratable(v, d0, items) && Storing(v, d0, Sealed(v, seen, nonce), d)
    requires Faithful(v, items, Seen(seen), nonce) || ViewOf(d, SECURE) == View(None, None, None, None)
    ensures Recovers(v, d, items)
  {
    forall m | CrashImage(d, m) ensures LoadReading(v, m) == Found(items) {
      SecureAfterCrash(v, d0, d, items, Sealed(v, seen, nonce), m);
      if Entry(m, Current(SECURE)) == None {
        LegacySurvives(v, d0, d, items, m);
      } else {
        assert ViewOf(d, SECURE) != View(None, None, None, None) by { SecureShows(d, m); }
        EnvelopeReadsBack(v, m, items, nonce);
      }
    }
  }

  lemma SecureShows(d: Disk, m: Files)
    requires CrashImage(d, m) && Entry(m, Current(SECURE)) != None
    ensures ViewOf(d, SECURE) != View(None, None, None, None)
  {
    var w := ViewOf(d, SECURE);
    assert Survives(w.current, Entry(m, Current(SECURE))) || Survives(w.durableCurrent, Entry(m, Current(SECURE)));
  }

  /** As soon as an envelope shows that is at the limit or holds another list, a crash can lose the list. */
  lemma ShownLoses(v: Vault, d0: Disk, d: Disk, items: Items, seen: Items, nonce: nat)
    requires LawfulVault(v) && Migratable(v, d0, items) && Storing(v, d0, Sealed(v, seen, nonce), d)
    requires !Faithful(v, items, Seen(seen), nonce) && ViewOf(d, SECURE) != View(None, None, None, None)
    ensures !Recovers(v, d, items)
  {
    var w := ViewOf(d, SECURE);
    var m := if w.current != None then Surviving(d.live) else Surviving(d.durable);
    SurvivingIsCrash(d);
    SecureAfterCrash(v, d0, d, items, Sealed(v, seen, nonce), m);
    assert Entry(m, Current(SECURE)) != None;
    EnvelopeReadsBack(v, m, seen, nonce);
  }

  /** After removals without a new file the list is recovered exactly when it can still be read. */
  lemma ErasedRecovers(v: Vault, d0: Disk, d: Disk, items: Items)
    requires Migratable(v, d0, items) && Erased(d0, d)
    ensures Recovers(v, d, items) <==> LegacyReading(v, d.live) == items
  {
    SurvivingIsCrash(d);
    ErasedReads(v, d0, d, items, Surviving(d.live));
    assert Entry(Surviving(d.live), Current(LEGACY)) == Entry(d.live, Current(LEGACY));
    assert Entry(Surviving(d.live), Previous(LEGACY)) == Entry(d.live, Previous(LEGACY));
    forall m | CrashImage(d, m) && LegacyReading(v, d.live) == items ensures LoadReading(v, m) == Found(items) {
      ErasedReads(v, d0, d, items, m);
    }
  }

  lemma ErasedReads(v: Vault, d0: Disk, d: Disk, items: Items, m: Files)
    requires Migratable(v, d0, items) && Erased(d0, d) && CrashImage(d, m)
    ensures LoadReading(v, m) == Found(LegacyReading(v, m))
    ensures LegacyReading(v, d.live) == items ==> LegacyReading(v, m) == items
  {
    var secure, legacy := ViewOf(d, SECURE), ViewOf(d, LEGACY);
    assert Survives(secure.current, Entry(m, Current(SECURE))) ||
           Survives(secure.durableCurrent, Entry(m, Current(SECURE)));
    assert Survives(secure.previous, Entry(m, Previous(SECURE))) ||
           Survives(secure.durablePrevious, Entry(m, Previous(SECURE)));
    assert Survives(legacy.current, Entry(m, Current(LEGACY))) ||
           Survives(legacy.durableCurrent, Entry(m, Current(LEGACY)));
    assert Survives(legacy.previous, Entry(m, Previous(LEGACY))) ||
           Survives(legacy.durablePrevious, Entry(m, Previous(LEGACY)));
  }

  /**
   * The exact condition, at every crash point of any load of a migratable directory, whatever fails: the list is
   * recovered if and only if the load acted on that list with an envelope below the limit, or has not taken effect yet.
   */
  lemma RecoversExactly(v: Vault, d0: Disk, look: Look, nonce: nat, d: Disk, items: Items)
    requires LawfulVault(v) && Migratable(v, d0, items) && Loading(v, d0, look, nonce, d)
    ensures Recovers(v, d, items) <==> Kept(v, items, look, nonce, d)
  {
    if look == Seen([]) {
      ErasedRecovers(v, d0, d, items);
    } else if Kept(v, items, look, nonce, d) {
      KeptRecovers(v, d0, d, items, look.items, nonce);
    } else {
      ShownLoses(v, d0, d, items, look.items, nonce);
    }
  }

  /** Before its first step a load has lost nothing, however long the list is. */
  lemma StartRecovers(v: Vault, d: Disk, items: Items)
    requires Migratable(v, d, items)
    ensures Recovers(v, d, items)
  {
    ErasedRecovers(v, d, d, items);
  }

  // ----- The operations -----

  lemma WriteIsStoring(v: Vault, d0: Disk, e: Envelope, before: seq<Disk>, after: seq<Disk>, harmless: bool)
    requires SafeTrail(v.envelopes, ViewOf(d0, SECURE), e, SECURE, d0, before, after, harmless)
    ensures StoringTrail(v, d0, e, before, after)
  {
    forall i | |before| <= i < |after| ensures Storing(v, d0, e, after[i]) {
      assert Fine(v.envelopes, ViewOf(d0, SECURE), ViewOf(after[i], SECURE), e, harmless);
      assert OthersKept(d0, after[i], SECURE);
    }
  }

  ghost predicate StoringTrail(v: Vault, d0: Disk, e: Envelope, before: seq<Disk>, after: seq<Disk>)
  {
    before <= after && forall i :: |before| <= i < |after| ==> Storing(v, d0, e, after[i])
  }

  ghost predicate ErasedTrail(d0: Disk, before: seq<Disk>, after: seq<Disk>)
  {
    before <= after && forall i :: |before| <= i < |after| ==> Erased(d0, after[i])
  }

  /** Removing the legacy file after the envelope is durable is part of storing it. */
  lemma ErasingIsStoring(v: Vault, d0: Disk, e: Envelope, d1: Disk, before: seq<Disk>, middle: seq<Disk>,
                         after: seq<Disk>)
    requires StoringTrail(v, d0, e, before, middle) && ErasedTrail(d1, middle, after)
    requires Storing(v, d0, e, d1) && Activated(v, e, ViewOf(d1, SECURE))
    ensures StoringTrail(v, d0, e, before, after)
  {
    forall i | |before| <= i < |after| ensures Storing(v, d0, e, after[i]) {
      if i < |middle| { assert after[i] == middle[i]; }
    }
  }

  /** The legacy list a load acts on was read whole from a generation that is there, or nothing was read. */
  predicate FromLegacy(v: Vault, d: Disk, items: Items)
  {
    items == [] || Decoded(v.lists, Entry(d.live, Current(LEGACY))) == Some(items) ||
    Decoded(v.lists, Entry(d.live, Previous(LEGACY))) == Some(items)
  }

  /** At every new point the list is recovered exactly when the load kept it. */
  ghost predicate ExactTrail(v: Vault, items: Items, look: Look, nonce: nat, before: seq<Disk>, after: seq<Disk>)
  {
    before <= after &&
    forall i :: |before| <= i < |after| ==> (Recovers(v, after[i], items) <==> Kept(v, items, look, nonce, after[i]))
  }

  lemma LoadingIsExact(v: Vault, d0: Disk, look: Look, nonce: nat, before: seq<Disk>, after: seq<Disk>, items: Items)
    requires LawfulVault(v) && Migratable(v, d0, items) && LoadingTrail(v, d0, look, nonce, before, after)
    ensures ExactTrail(v, items, look, nonce, before, after)
    ensures Faithful(v, items, look, nonce) ==> TrailRecovers(v, items, before, after)
  {
    forall i | |before| <= i < |after|
      ensures Recovers(v, after[i], items) <==> Kept(v, items, look, nonce, after[i])
    {
      RecoversExactly(v, d0, look, nonce, after[i], items);
    }
  }

  /**
   * What a load does to a list that is waiting: exactly the kept points recover it, and a list too long is not touched.
   */
  ghost predicate Migrating(v: Vault, items: Items, look: Look, nonce: nat,
                            d0: Disk, before: seq<Disk>, d: Disk, after: seq<Disk>)
  {
    ExactTrail(v, items, look, nonce, before, after) &&
    (Faithful(v, items, look, nonce) ==> TrailRecovers(v, items, before, after)) &&
    (look.Unread? || (look.items != [] && EnvelopeSize(v, look.items, nonce) > MAX_STATE_SIZE) ==>
       d == d0 && after == before)
  }

  /** In the end the list is recovered if and only if the load was faithful. */
  ghost predicate EndsExactly(v: Vault, items: Items, look: Look, nonce: nat, d: Disk)
  {
    Recovers(v, d, items) <==> Faithful(v, items, look, nonce)
  }

  lemma EndIsExact(v: Vault, d0: Disk, look: Look, nonce: nat, d: Disk, items: Items)
    requires LawfulVault(v) && Migratable(v, d0, items) && Loading(v, d0, look, nonce, d)
    requires if look == Seen([]) then LegacyReading(v, d.live) == []
             else Activated(v, Sealed(v, look.items, nonce), ViewOf(d, SECURE))
    ensures EndsExactly(v, items, look, nonce, d)
  {
    RecoversExactly(v, d0, look, nonce, d, items);
  }

  /**
   * When nothing fails: success up to the size limit, and no crash point loses the list unless it is exactly at the
   * limit.
   */
  ghost predicate WorksExactly(v: Vault, items: Items, look: Look, nonce: nat, before: seq<Disk>, after: seq<Disk>,
                               ok: bool)
  {
    look == Seen(items) && (ok <==> EnvelopeSize(v, items, nonce) <= MAX_STATE_SIZE) &&
    (TrailRecovers(v, items, before, after) <==> EnvelopeSize(v, items, nonce) != MAX_STATE_SIZE)
  }

  lemma WorkIsExact(v: Vault, d0: Disk, look: Look, nonce: nat, before: seq<Disk>, d: Disk, after: seq<Disk>,
                    items: Items, ok: bool)
    requires Migratable(v, d0, items) && look == Seen(items) && Migrating(v, items, look, nonce, d0, before, d, after)
    requires before != [] && before[|before| - 1] == d0 && after != [] && after[|after| - 1] == d
    requires ok <==> EnvelopeSize(v, items, nonce) <= MAX_STATE_SIZE
    requires ok ==> EndsExactly(v, items, look, nonce, d)
    ensures WorksExactly(v, items, look, nonce, before, after, ok)
  {
    if EnvelopeSize(v, items, nonce) == MAX_STATE_SIZE {
      StartRecovers(v, d0, items);
      assert !Recovers(v, d, items);
      assert |after| > |before|;
    }
  }

  /** What `load` does on the legacy file: the trail, and when it ends well. `sure` when nothing can fail. */
  ghost predicate LegacyOutcome(v: Vault, d0: Disk, before: seq<Disk>, d: Disk, after: seq<Disk>, look: Look,
                                nonce: nat,
                                ok: bool, removalsWork: bool, sure: bool)
  {
    LoadingTrail(v, d0, look, nonce, before, after) &&
    (look.Unread? || (look.items != [] && EnvelopeSize(v, look.items, nonce) > MAX_STATE_SIZE) ==>
       !ok && d == d0 && after == before) &&
    (ok ==> Loading(v, d0, look, nonce, d)) &&
    (ok && look.items != [] ==> Activated(v, Sealed(v, look.items, nonce), ViewOf(d, SECURE))) &&
    (ok && look.items == [] && removalsWork ==> LegacyReading(v, d.live) == []) &&
    (sure ==> look == Seen(LegacyReading(v, d0.live)) &&
              (ok <==> look.items == [] || EnvelopeSize(v, look.items, nonce) <= MAX_STATE_SIZE))
  }

  /** What that means for a list that is waiting. */
  ghost predicate MigrationOutcome(v: Vault, d0: Disk, before: seq<Disk>, d: Disk, after: seq<Disk>, look: Look,
                                   nonce: nat,
                                   ok: bool, removalsWork: bool, sure: bool)
  {
    var items := LegacyReading(v, d0.live);
    Migrating(v, items, look, nonce, d0, before, d, after) &&
    (ok && removalsWork ==> EndsExactly(v, items, look, nonce, d)) &&
    (sure ==> WorksExactly(v, items, look, nonce, before, after, ok))
  }

  lemma MigrationIsExact(v: Vault, d0: Disk, before: seq<Disk>, d: Disk, after: seq<Disk>, look: Look, nonce: nat,
                         ok: bool, removalsWork: bool, sure: bool)
    requires LawfulVault(v) && Migratable(v, d0, LegacyReading(v, d0.live)) && (sure ==> removalsWork)
    requires before != [] && before[|before| - 1] == d0 && after != [] && after[|after| - 1] == d
    requires LegacyOutcome(v, d0, before, d, after, look, nonce, ok, removalsWork, sure)
    ensures MigrationOutcome(v, d0, before, d, after, look, nonce, ok, removalsWork, sure)
  {
    var items := LegacyReading(v, d0.live);
    LoadingIsExact(v, d0, look, nonce, before, after, items);
    if ok && removalsWork { EndIsExact(v, d0, look, nonce, d, items); }
    if sure { WorkIsExact(v, d0, look, nonce, before, d, after, items, ok); }
  }

  class ProfileFile {
    const store: Store
    const vault: Vault

    constructor (store: Store, vault: Vault)
      ensures this.store == store && this.vault == vault
    {
      this.store, this.vault := store, vault;
    }

    /** `removeLegacyProfileFiles`: best effort, without a sync. */
    method RemoveLegacy()
      requires store.Valid()
      modifies store.dir`disk, store.dir`trail
      ensures store.Valid() && Erased(old(store.dir.disk), store.dir.disk)
      ensures ErasedTrail(old(store.dir.disk), old(store.dir.trail), store.dir.trail)
      ensures store.dir.writesWork ==>
                Entry(store.dir.disk.live, Current(LEGACY)) == None &&
                Entry(store.dir.disk.live, Previous(LEGACY)) == None
    {
      NamesAreValid();
      store.dir.RemoveGeneration(Current(LEGACY));
      store.dir.RemoveGeneration(Previous(LEGACY));
    }

    /** Whether `protectProfileData` works: it may need to make a key file in the directory. */
    method Protects() returns (ok: bool)
      ensures store.dir.writesWork ==> ok
    {
      var failed := store.dir.Fails();
      return !failed;
    }

    /** `saveAll`: an envelope at most as long as the limit is stored, and only then the legacy file is removed. */
    method SaveAll(items: Items) returns (ok: bool, ghost nonce: nat)
      requires store.Valid() && LawfulVault(vault)
      modifies store`dirIdentity, store.dir`place, store.dir`disk, store.dir`nextTemp, store.dir`trail
      ensures store.Valid() && store.BindingKept()
      ensures StoringTrail(vault, old(store.dir.disk), Sealed(vault, items, nonce), old(store.dir.trail),
                           store.dir.trail)
      ensures ok ==> Storing(vault, old(store.dir.disk), Sealed(vault, items, nonce), store.dir.disk)
      ensures ok ==> Activated(vault, Sealed(vault, items, nonce), ViewOf(store.dir.disk, SECURE))
      ensures !old(store.Bound()) || EnvelopeSize(vault, items, nonce) > MAX_STATE_SIZE ==>
                !ok && store.dir.disk == old(store.dir.disk) && store.dir.trail == old(store.dir.trail)
      ensures store.dir.Reliable() ==> ok == (old(store.Bound()) && EnvelopeSize(vault, items, nonce) <= MAX_STATE_SIZE)
    {
      var n: nat := *;
      nonce := n;
      ok := Protects();
      if !ok { return; }
      var e := Sealed(vault, items, n);
      ghost var d0, t0, v0 := store.dir.disk, store.dir.trail, ViewOf(store.dir.disk, SECURE);
      ok := store.Write(vault.envelopes, SECURE, e);
      WriteIsStoring(vault, d0, e, t0, store.dir.trail, Harmless(vault.envelopes, v0, e, store.dir.Reliable()));
      NamesAreValid();
      if !ok { return; }
      ghost var d1, t1 := store.dir.disk, store.dir.trail;
      RemoveLegacy();
      ErasingIsStoring(vault, d0, e, d1, t0, t1, store.dir.trail);
    }

    /** Whether a file is there, or an error when that cannot be found out. */
    method Exists(s: Slot) returns (r: Result<bool, string>)
      ensures r.Ok? ==> r.value == Entry(store.dir.disk.live, s).Some?
      ensures store.dir.readsWork ==> r.Ok?
    {
      var failed := store.dir.FailsToRead();
      if failed { return Err("lstat"); }
      return Ok(Entry(store.dir.disk.live, s).Some?);
    }

    /** Neither secure generation is there; an unreadable one must not be mistaken for a missing one. */
    method NoSecureFile() returns (absent: bool)
      ensures absent ==>
                Entry(store.dir.disk.live, Current(SECURE)).None? && Entry(store.dir.disk.live, Previous(SECURE)).None?
      ensures store.dir.readsWork && !absent ==>
                Entry(store.dir.disk.live, Current(SECURE)).Some? || Entry(store.dir.disk.live, Previous(SECURE)).Some?
    {
      var there := Exists(Current(SECURE));
      if there.Err? || there.value { return false; }
      there := Exists(Previous(SECURE));
      return there.Ok? && !there.value;
    }

    /**
     * The part of `loadSecure` behind the envelope: an outdated seal is replaced, which a too long envelope prevents.
     */
    method Unlock(envelope: Envelope) returns (r: Result<Items, string>, ghost nonce: nat)
      requires store.Valid() && LawfulVault(vault)
      modifies store`dirIdentity, store.dir`place, store.dir`disk, store.dir`nextTemp, store.dir`trail
      ensures store.Valid() && store.BindingKept()
      ensures r.Ok? ==> Unsealed(vault, envelope) == Found(r.value)
      ensures store.dir.Reliable() && old(store.Bound()) && Unsealed(vault, envelope).Found? ==>
                r.Ok? || EnvelopeSize(vault, Unsealed(vault, envelope).items, nonce) > MAX_STATE_SIZE
    {
      nonce := 0;
      if envelope.version != 1 { return Err("version"), nonce; }
      var failed := store.dir.FailsToRead();
      if failed { return Err("unprotect"), nonce; }
      var items := vault.unseal(envelope.sealed);
      if items.None? { return Err("sealed"), nonce; }
      if vault.outdated(envelope.sealed) {
        var ok;
        ok, nonce := SaveAll(items.value);
        if !ok { return Err("migration"), nonce; }
      }
      return Ok(items.value), nonce;
    }

    /**
     * `loadSecure`: the secure list, nothing when there is no secure file, or an error. A list sealed in an outdated
     * form is stored again, which only an envelope over the limit can prevent when everything works.
     */
    method LoadSecure() returns (r: Result<Option<Items>, string>, ghost nonce: nat)
      requires store.Valid() && LawfulVault(vault)
      modifies store`dirIdentity, store.dir`place, store.dir`disk, store.dir`nextTemp, store.dir`trail
      ensures store.Valid() && store.BindingKept()
      ensures SecureReading(vault, old(store.dir.disk.live)).Absent? ==>
                store.dir.disk == old(store.dir.disk) && store.dir.trail == old(store.dir.trail)
      ensures r.Ok? ==> old(store.Bound())
      ensures store.dir.readsWork && r.Ok? ==>
                SecureReading(vault, old(store.dir.disk.live)) ==
                (if r.value.Some? then Found(r.value.value) else Absent)
      ensures r.Ok? ==> (r.value.None? <==> SecureReading(vault, old(store.dir.disk.live)).Absent?)
      ensures store.dir.Reliable() && old(store.Bound()) ==>
                match SecureReading(vault, old(store.dir.disk.live))
                case Absent => r == Ok(None)
                case Found(items) =>
                  r == Ok(Some(items)) || (r.Err? && EnvelopeSize(vault, items, nonce) > MAX_STATE_SIZE)
                case Broken => r.Err?
    {
      nonce := 0;
      var read := store.Read(vault.envelopes, SECURE, Envelope(0, ""));
      NamesAreValid();
      if read.Err? { return Err(read.error), nonce; }
      var envelope := read.value.0;
      if read.value.1.FromFallback? || envelope.sealed == "" {
        var absent := NoSecureFile();
        return if absent then Ok(None) else Err("unreadable"), nonce;
      }
      var items;
      items, nonce := Unlock(envelope);
      return if items.Ok? then Ok(Some(items.value)) else Err(items.error), nonce;
    }

    /** What `load` does with a legacy list: store it unless it is empty, and only then remove its file. */
    method Migrate(legacy: Items) returns (ok: bool, ghost nonce: nat)
      requires store.Valid() && LawfulVault(vault)
      modifies store`dirIdentity, store.dir`place, store.dir`disk, store.dir`nextTemp, store.dir`trail
      ensures store.Valid() && store.BindingKept()
      ensures LoadingTrail(vault, old(store.dir.disk), Seen(legacy), nonce, old(store.dir.trail), store.dir.trail)
      ensures ok ==> Loading(vault, old(store.dir.disk), Seen(legacy), nonce, store.dir.disk)
      ensures ok && legacy != [] ==> Activated(vault, Sealed(vault, legacy, nonce), ViewOf(store.dir.disk, SECURE))
      ensures ok && legacy == [] && store.dir.writesWork ==> LegacyReading(vault, store.dir.disk.live) == []
      ensures legacy != [] && EnvelopeSize(vault, legacy, nonce) > MAX_STATE_SIZE ==>
                !ok && store.dir.disk == old(store.dir.disk) && store.dir.trail == old(store.dir.trail)
      ensures store.dir.Reliable() && old(store.Bound()) ==>
                ok == (legacy == [] || EnvelopeSize(vault, legacy, nonce) <= MAX_STATE_SIZE)
    {
      ok, nonce := true, 0;
      if legacy != [] {
        ok, nonce := SaveAll(legacy);
        if !ok { return; }
      }
      ghost var d1, t1 := store.dir.disk, store.dir.trail;
      RemoveLegacy();
      if legacy != [] {
        ErasingIsStoring(vault, old(store.dir.disk), Sealed(vault, legacy, nonce), d1, old(store.dir.trail), t1,
                         store.dir.trail);
      }
    }

    /** The part of `load` that runs when there is no secure list. */
    method LoadLegacy() returns (r: Result<Items, string>, ghost look: Look, ghost nonce: nat)
      requires store.Valid() && LawfulVault(vault)
      modifies store`dirIdentity, store.dir`place, store.dir`disk, store.dir`nextTemp, store.dir`trail
      ensures store.Valid() && store.BindingKept()
      ensures if look.Unread? then r.Err? else r.Err? || r == Ok(look.items)
      ensures look.Seen? ==> FromLegacy(vault, old(store.dir.disk), look.items)
      ensures look.Seen? && store.dir.readsWork ==> look.items == LegacyReading(vault, old(store.dir.disk.live))
      ensures LegacyOutcome(vault, old(store.dir.disk), old(store.dir.trail), store.dir.disk, store.dir.trail,
                            look, nonce, r.Ok?, store.dir.writesWork, store.dir.Reliable() && old(store.Bound()))
    {
      look, nonce := Unread, 0;
      var read := store.Read(vault.lists, LEGACY, []);
      NamesAreValid();
      if read.Err? { return Err(read.error), look, nonce; }
      var legacy := read.value.0;
      look := Seen(legacy);
      var ok;
      ok, nonce := Migrate(legacy);
      return if ok then Ok(legacy) else Err("store"), look, nonce;
    }

    /**
     * `load`, whatever fails. Of a legacy list waiting to be migrated it promises at every crash point exactly what
     * `Kept` says, for the list it saw and the randomness it used: a list read as it is and sealed below the limit is
     * never lost, one sealed above the limit is not touched, and one sealed to the limit or misread is lost in the end.
     */
    method Load() returns (r: Result<Items, string>, ghost look: Look, ghost nonce: nat)
      requires store.Valid() && LawfulVault(vault)
      modifies store`dirIdentity, store.dir`place, store.dir`disk, store.dir`nextTemp, store.dir`trail
      ensures store.Valid() && store.BindingKept()
      ensures store.dir.readsWork && r.Ok? ==> LoadReading(vault, old(store.dir.disk.live)) == Found(r.value)
      ensures store.dir.Reliable() && old(store.Bound()) ==>
                match LoadReading(vault, old(store.dir.disk.live))
                case Found(items) => r == Ok(items) || (r.Err? && EnvelopeSize(vault, items, nonce) > MAX_STATE_SIZE)
                case Broken => r.Err?
      ensures look.Seen? ==> FromLegacy(vault, old(store.dir.disk), look.items)
      ensures look.Seen? && store.dir.readsWork ==> look.items == LegacyReading(vault, old(store.dir.disk.live))
      ensures Migratable(vault, old(store.dir.disk), LegacyReading(vault, old(store.dir.disk.live))) ==>
                MigrationOutcome(vault, old(store.dir.disk), old(store.dir.trail), store.dir.disk, store.dir.trail,
                                 look, nonce, r.Ok?, store.dir.writesWork, store.dir.Reliable() && old(store.Bound()))
    {
      ghost var d0, t0 := store.dir.disk, store.dir.trail;
      look := Unread;
      var secure;
      secure, nonce := LoadSecure();
      if secure.Err? {
        r := Err(secure.error);
      } else if secure.value.Some? {
        r := Ok(secure.value.value);
      } else {
        r, look, nonce := LoadLegacy();
      }
      if Migratable(vault, d0, LegacyReading(vault, d0.live)) {
        MigrationIsExact(vault, d0, t0, store.dir.disk, store.dir.trail, look, nonce, r.Ok?,
                         store.dir.writesWork, store.dir.Reliable() && old(store.Bound()));
      }
    }
  }

  /** A settled directory with these legacy generations and nothing else. */
  function Waiting(v: Vault, current: Items, previous: Items): Disk
  {
    var files := map[Current(LEGACY) := Regular(v.lists.encode(current) + [10], true),
                     Previous(LEGACY) := Regular(v.lists.encode(previous) + [10], true)];
    Disk(files, files)
  }

  /** The exception is real: when both reads of the legacy file fail, a load takes it for empty and removes it. */
  lemma MisreadErases(v: Vault, items: Items, older: Items)
    requires LawfulVault(v) && items != [] && |v.lists.encode(items)| < MAX_STATE_SIZE
    ensures var d0 := Waiting(v, items, older);
            var d := d0.(live := map[]);
            Migratable(v, d0, items) && FromLegacy(v, d0, []) && Loading(v, d0, Seen([]), 0, d) &&
            !Recovers(v, d, items)
  {
    var d0 := Waiting(v, items, older);
    NamesAreValid();
    RecoversExactly(v, d0, Seen([]), 0, d0.(live := map[]), items);
  }

  /** When only the read of the current legacy generation fails, a load puts the older list in its place. */
  lemma OlderReplaces(v: Vault, items: Items, older: Items, nonce: nat)
    requires LawfulVault(v) && items != [] && older != [] && older != items
    requires |v.lists.encode(items)| < MAX_STATE_SIZE && |v.lists.encode(older)| < MAX_STATE_SIZE
    ensures var d0 := Waiting(v, items, older);
            var secure := map[Current(SECURE) := Regular(v.envelopes.encode(Sealed(v, older, nonce)) + [10], true)];
            var d := Disk(secure, d0.durable + secure);
            Migratable(v, d0, items) && FromLegacy(v, d0, older) && Loading(v, d0, Seen(older), nonce, d) &&
            !Recovers(v, d, items)
  {
    var d0 := Waiting(v, items, older);
    var secure := map[Current(SECURE) := Regular(v.envelopes.encode(Sealed(v, older, nonce)) + [10], true)];
    var d := Disk(secure, d0.durable + secure);
    NamesAreValid();
    assert ViewOf(d, SECURE).current != None;
    RecoversExactly(v, d0, Seen(older), nonce, d, items);
  }
}
