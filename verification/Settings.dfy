/**
 * Application settings of internal/config/settings.go: migration of the legacy overwrite flags, normalisation of
 * whatever is on disk, validation of what a caller sets, and the cached store over `StateStore`.
 */
module Settings {
  import opened Wrappers
  import opened StateStore

  const DEFAULT_LANGUAGE := "en"
  const DARK := "dark"
  const LIGHT := "light"
  const SKIP := "skip"
  const REPLACE := "replace"
  const REPLACE_BACKUP := "replace_backup"
  const FILE_NAME := "settings.json"

  datatype Settings = Settings(
    language: string, appearance: string, parallelism: int, uploadLimit: int, downloadLimit: int,
    conflictPolicy: string, backupBeforeOverwrite: bool, confirmDelete: bool, autoRetryCount: int,
    retryDelaySeconds: int, skipExisting: bool, connectionTimeoutSeconds: int)

  /** `i18n.canonical`: the code of a supported language, or the empty string. */
  type Languages = string -> string

  /** Canonical codes are their own canonical code, and the default language is supported. */
  ghost predicate LawfulLanguages(canonical: Languages)
  {
    canonical(DEFAULT_LANGUAGE) == DEFAULT_LANGUAGE && canonical("") == "" &&
    forall code :: canonical(code) != "" ==> canonical(canonical(code)) == canonical(code)
  }

  function NormalizeLanguage(canonical: Languages, code: string): string
  {
    if canonical(code) != "" then canonical(code) else DEFAULT_LANGUAGE
  }

  function DefaultSettings(): Settings
  {
    Settings(DEFAULT_LANGUAGE, DARK, 2, 0, 0, REPLACE_BACKUP, true, true, 0, 3, false, 15)
  }

  /** The value the decoder's destination has before anything is read. */
  function ZeroSettings(): Settings
  {
    Settings("", "", 0, 0, 0, "", false, false, 0, 0, false, 0)
  }

  predicate ValidAppearance(appearance: string) { appearance == DARK || appearance == LIGHT }

  predicate ValidPolicy(policy: string) { policy == SKIP || policy == REPLACE || policy == REPLACE_BACKUP }

  predicate ValidBandwidth(limit: int) { 0 <= limit <= 1048576 }

  predicate ValidParallelism(n: int) { 1 <= n <= 8 }

  predicate ValidRetries(n: int) { 0 <= n <= 3 }

  predicate ValidRetryDelay(n: int) { 1 <= n <= 30 }

  predicate ValidTimeout(n: int) { 5 <= n <= 60 }

  function ChoosePolicy(v: Settings, persisted: bool): string
  {
    if v.conflictPolicy == "" then
      if v.skipExisting then SKIP else if v.backupBeforeOverwrite then REPLACE_BACKUP else REPLACE
    else if !ValidPolicy(v.conflictPolicy) && persisted then REPLACE_BACKUP
    else v.conflictPolicy
  }

  function MigrateConflictPolicy(v: Settings, persisted: bool): Settings
  {
    var policy := ChoosePolicy(v, persisted);
    var w := v.(conflictPolicy := policy);
    if policy == SKIP then w.(skipExisting := true, backupBeforeOverwrite := true)
    else if policy == REPLACE then w.(skipExisting := false, backupBeforeOverwrite := false)
    else if policy == REPLACE_BACKUP then w.(skipExisting := false, backupBeforeOverwrite := true)
    else w
  }

  /** Each field that is out of range gets its default. */
  function NormalizeFields(canonical: Languages, v: Settings): Settings
  {
    Settings(
      NormalizeLanguage(canonical, v.language),
      if ValidAppearance(v.appearance) then v.appearance else DARK,
      if ValidParallelism(v.parallelism) then v.parallelism else 2,
      if ValidBandwidth(v.uploadLimit) then v.uploadLimit else 0,
      if ValidBandwidth(v.downloadLimit) then v.downloadLimit else 0,
      v.conflictPolicy, v.backupBeforeOverwrite, v.confirmDelete,
      if ValidRetries(v.autoRetryCount) then v.autoRetryCount else 0,
      if ValidRetryDelay(v.retryDelaySeconds) then v.retryDelaySeconds else 3,
      v.skipExisting,
      if ValidTimeout(v.connectionTimeoutSeconds) then v.connectionTimeoutSeconds else 15)
  }

  function NormalizeSettings(canonical: Languages, v: Settings): Settings
  {
    MigrateConflictPolicy(NormalizeFields(canonical, v), true)
  }

  /** `validateSettings` without its messages. */
  predicate ValidateSettings(canonical: Languages, v: Settings)
  {
    canonical(v.language) != "" && ValidAppearance(v.appearance) && ValidParallelism(v.parallelism) &&
    ValidBandwidth(v.uploadLimit) && ValidBandwidth(v.downloadLimit) && ValidPolicy(v.conflictPolicy) &&
    ValidRetries(v.autoRetryCount) && ValidRetryDelay(v.retryDelaySeconds) && ValidTimeout(v.connectionTimeoutSeconds)
  }

  /** The legacy flags say what the policy says. */
  predicate FlagsAgree(v: Settings)
  {
    (v.skipExisting <==> v.conflictPolicy == SKIP) && (v.backupBeforeOverwrite <==> v.conflictPolicy != REPLACE)
  }

  /** Valid settings in their one stored form. */
  predicate Canonical(canonical: Languages, v: Settings)
  {
    ValidateSettings(canonical, v) && FlagsAgree(v) && canonical(v.language) == v.language
  }

  lemma MigrationAgrees(v: Settings)
    ensures var w := MigrateConflictPolicy(v, true);
            ValidPolicy(w.conflictPolicy) && FlagsAgree(w) &&
            w ==
            v.(conflictPolicy := w.conflictPolicy, skipExisting := w.skipExisting,
               backupBeforeOverwrite := w.backupBeforeOverwrite)
  {
  }

  lemma CanonicalIsFixed(canonical: Languages, v: Settings)
    requires Canonical(canonical, v)
    ensures NormalizeSettings(canonical, v) == v
  {
  }

  /** Whatever was stored, normalisation gives canonical settings; hence it is idempotent. */
  lemma NormalizationIsCanonical(canonical: Languages, v: Settings)
    requires LawfulLanguages(canonical)
    ensures Canonical(canonical, NormalizeSettings(canonical, v))
    ensures NormalizeSettings(canonical, NormalizeSettings(canonical, v)) == NormalizeSettings(canonical, v)
  {
    MigrationAgrees(NormalizeFields(canonical, v));
    CanonicalIsFixed(canonical, NormalizeSettings(canonical, v));
  }

  /** The settings normalisation leaves alone are exactly the canonical ones. */
  lemma FixedPointsAreCanonical(canonical: Languages, v: Settings)
    requires LawfulLanguages(canonical)
    ensures NormalizeSettings(canonical, v) == v <==> Canonical(canonical, v)
  {
    NormalizationIsCanonical(canonical, v);
    if Canonical(canonical, v) { CanonicalIsFixed(canonical, v); }
  }

  /** The policy in force: one of the three known ones, or for an older file what its two flags meant. */
  function PolicyOf(policy: string, skipExisting: bool, backup: bool, unknown: string): string
  {
    if policy == "" then (if skipExisting then "skip" else if backup then "replace_backup" else "replace")
    else if policy == "skip" || policy == "replace" || policy == "replace_backup" then policy
    else unknown
  }

  /**
   * What any settings on disk amount to, field by field: what is out of range gets its default, an unknown policy the
   * cautious one, and both flags follow the policy.
   */
  lemma NormalizationMeans(canonical: Languages, v: Settings)
    ensures var w := NormalizeSettings(canonical, v);
            w.language == (if canonical(v.language) == "" then "en" else canonical(v.language)) &&
            w.appearance == (if v.appearance == "light" then "light" else "dark") &&
            w.parallelism == (if 1 <= v.parallelism <= 8 then v.parallelism else 2) &&
            w.uploadLimit == (if 0 <= v.uploadLimit <= 1048576 then v.uploadLimit else 0) &&
            w.downloadLimit == (if 0 <= v.downloadLimit <= 1048576 then v.downloadLimit else 0) &&
            w.conflictPolicy ==
            PolicyOf(v.conflictPolicy, v.skipExisting, v.backupBeforeOverwrite, "replace_backup") &&
            (w.skipExisting <==> w.conflictPolicy == "skip") &&
            (w.backupBeforeOverwrite <==> w.conflictPolicy != "replace") && w.confirmDelete == v.confirmDelete &&
            w.autoRetryCount == (if 0 <= v.autoRetryCount <= 3 then v.autoRetryCount else 0) &&
            w.retryDelaySeconds == (if 1 <= v.retryDelaySeconds <= 30 then v.retryDelaySeconds else 3) &&
            w.connectionTimeoutSeconds ==
            if 5 <= v.connectionTimeoutSeconds <= 60 then v.connectionTimeoutSeconds else 15
  {
    MigrationAgrees(NormalizeFields(canonical, v));
    PolicyMeans(NormalizeFields(canonical, v));
  }

  lemma PolicyMeans(v: Settings)
    ensures MigrateConflictPolicy(v, true).conflictPolicy ==
            PolicyOf(v.conflictPolicy, v.skipExisting, v.backupBeforeOverwrite, "replace_backup")
  {
  }

  /** Nothing read amounts to overwriting without a backup and deleting without a question. */
  lemma ZeroMeans(canonical: Languages)
    requires LawfulLanguages(canonical)
    ensures IsZeroReading(NormalizeSettings(canonical, ZeroSettings()))
  {
    NormalizationMeans(canonical, ZeroSettings());
  }

  predicate IsZeroReading(v: Settings)
  {
    v == Settings("en", "dark", 2, 0, 0, "replace", false, false, 0, 3, false, 15)
  }

  lemma ReadingMeans(canonical: Languages, found: Settings)
    requires LawfulLanguages(canonical)
    ensures Canonical(canonical, NormalizeSettings(canonical, found))
    ensures found == ZeroSettings() ==> IsZeroReading(NormalizeSettings(canonical, found))
  {
    NormalizationIsCanonical(canonical, found);
    ZeroMeans(canonical);
  }

  /** Without a file, the defaults: backups are made, deletions confirmed, bandwidth is not limited. */
  lemma DefaultsMean(canonical: Languages)
    requires LawfulLanguages(canonical)
    ensures DefaultSettings() == Settings("en", "dark", 2, 0, 0, "replace_backup", true, true, 0, 3, false, 15)
    ensures Canonical(canonical, DefaultSettings())
  {
  }

  /**
   * A request is accepted exactly when, apart from what it omits, every field is in range; `Set` does not correct a
   * caller.
   */
  lemma AcceptedExactly(canonical: Languages, v: Settings)
    requires LawfulLanguages(canonical)
    ensures ValidateSettings(canonical, Requested(v)) <==>
            (v.language == "" || canonical(v.language) != "") && v.appearance in {"", "dark", "light"} &&
            0 <= v.parallelism <= 8 && 0 <= v.uploadLimit <= 1048576 && 0 <= v.downloadLimit <= 1048576 &&
            v.conflictPolicy in {"", "skip", "replace", "replace_backup"} && 0 <= v.autoRetryCount <= 3 &&
            0 <= v.retryDelaySeconds <= 30 &&
            (v.connectionTimeoutSeconds == 0 || 5 <= v.connectionTimeoutSeconds <= 60)
  {
    var w := FillMissing(v);
    assert ValidPolicy(ChoosePolicy(w, false)) <==> v.conflictPolicy in {"", "skip", "replace", "replace_backup"};
  }

  /** Unless the stored file itself asks for it, migration never ends in a policy that overwrites without a backup. */
  lemma MigrationIsConservative(v: Settings, persisted: bool)
    requires MigrateConflictPolicy(v, persisted).conflictPolicy == REPLACE
    ensures v.conflictPolicy == REPLACE || (v.conflictPolicy == "" && !v.skipExisting && !v.backupBeforeOverwrite)
  {
  }

  /** The omissions `Set` fills in before validating. */
  function FillMissing(v: Settings): Settings
  {
    v.(language := if v.language == "" then DEFAULT_LANGUAGE else v.language,
       appearance := if v.appearance == "" then DARK else v.appearance,
       parallelism := if v.parallelism == 0 then 2 else v.parallelism,
       connectionTimeoutSeconds := if v.connectionTimeoutSeconds == 0 then 15 else v.connectionTimeoutSeconds,
       retryDelaySeconds := if v.retryDelaySeconds == 0 then 3 else v.retryDelaySeconds)
  }

  function Requested(v: Settings): Settings
  {
    MigrateConflictPolicy(FillMissing(v), false)
  }

  function Stored(canonical: Languages, v: Settings): Settings
  {
    Requested(v).(language := NormalizeLanguage(canonical, Requested(v).language))
  }

  /**
   * What `Set` accepts it stores in canonical form, and there it only ever fills in omissions: an explicit valid choice
   * is kept.
   */
  lemma AcceptedIsCanonical(canonical: Languages, v: Settings)
    requires LawfulLanguages(canonical) && ValidateSettings(canonical, Requested(v))
    ensures Canonical(canonical, Stored(canonical, v))
    ensures Canonical(canonical, v) ==> Stored(canonical, v) == v
    ensures NormalizeSettings(canonical, v) == Stored(canonical, v)
  {
    StoredIsCanonical(canonical, v);
    if Canonical(canonical, v) { StoredKeepsCanonical(canonical, v); }
    FilledIsNormal(canonical, v);
  }

  lemma StoredIsCanonical(canonical: Languages, v: Settings)
    requires LawfulLanguages(canonical) && ValidateSettings(canonical, Requested(v))
    ensures Canonical(canonical, Stored(canonical, v))
  {
  }

  lemma StoredKeepsCanonical(canonical: Languages, v: Settings)
    requires LawfulLanguages(canonical) && Canonical(canonical, v)
    ensures Stored(canonical, v) == v
  {
  }

  /** Filling in omissions is what normalisation does to a request that is otherwise valid. */
  lemma FilledIsNormal(canonical: Languages, v: Settings)
    requires LawfulLanguages(canonical) && ValidateSettings(canonical, Requested(v))
    ensures NormalizeSettings(canonical, v) == Stored(canonical, v)
  {
    FieldsAreFilled(canonical, v);
    PoliciesAgree(canonical, v);
  }

  lemma FieldsAreFilled(canonical: Languages, v: Settings)
    requires LawfulLanguages(canonical) && ValidateSettings(canonical, Requested(v))
    ensures NormalizeFields(canonical, v) ==
            FillMissing(v).(language := NormalizeLanguage(canonical, FillMissing(v).language))
  {
  }

  lemma PoliciesAgree(canonical: Languages, v: Settings)
    requires LawfulLanguages(canonical) && ValidateSettings(canonical, Requested(v))
    ensures ChoosePolicy(FillMissing(v), false) == ChoosePolicy(NormalizeFields(canonical, v), true)
  {
  }

  /** What a fresh `Get` on these files returns. */
  function Fresh(canonical: Languages, c: Codec<Settings>, files: Files): Settings
  {
    NormalizeSettings(canonical, BestReading(c, files, FILE_NAME, DefaultSettings()).0)
  }

  class SettingsStore {
    const store: Store
    const codec: Codec<Settings>
    const canonical: Languages
    var loaded: bool
    var value: Settings

    constructor (store: Store, codec: Codec<Settings>, canonical: Languages)
      ensures this.store == store && this.codec == codec && this.canonical == canonical && !loaded
    {
      this.store, this.codec, this.canonical := store, codec, canonical;
      loaded, value := false, ZeroSettings();
    }

    ghost predicate Valid()
      reads this, store, store.dir
    {
      store.Valid() && LawfulLanguages(canonical) && Lawful(codec) && (loaded ==> Canonical(canonical, value))
    }

    /** The cache shows what a fresh `Get` would return. */
    predicate Agrees()
      reads this, store, store.dir
    {
      loaded ==> value == Fresh(canonical, codec, store.dir.disk.live)
    }

    method Get() returns (v: Settings, ok: bool)
      requires Valid()
      modifies this`loaded, this`value, store`dirIdentity, store.dir`place
      ensures Valid() && store.BindingKept() && Canonical(canonical, v)
      ensures old(loaded) ==> ok && v == old(value)
      ensures ok <==> loaded
      ensures ok ==> value == v
      ensures !ok ==> IsZeroReading(v)
      ensures store.dir.Reliable() && (old(loaded) || old(store.Bound())) ==> ok
      ensures store.dir.Reliable() && ok && old(Agrees()) ==>
                v == Fresh(canonical, codec, store.dir.disk.live) && Agrees()
    {
      if loaded { return value, true; }
      var r := store.Read(codec, FILE_NAME, DefaultSettings());
      var found := if r.Ok? then r.value.0 else ZeroSettings();
      ReadingMeans(canonical, found);
      v, ok := NormalizeSettings(canonical, found), r.Ok?;
      if ok { value, loaded := v, true; }
    }

    /** What the program runs with: the defaults when the settings cannot be read, never what `Get` then returns. */
    method Effective() returns (v: Settings)
      requires Valid()
      modifies this`loaded, this`value, store`dirIdentity, store.dir`place
      ensures Valid() && store.BindingKept() && Canonical(canonical, v)
      ensures v == if loaded then value else DefaultSettings()
      ensures !loaded ==> v.conflictPolicy == "replace_backup" && v.confirmDelete
      ensures old(loaded) ==> v == old(value)
    {
      var found, ok := Get();
      v := if ok then found else DefaultSettings();
    }

    method Set(requested: Settings) returns (v: Settings, ok: bool)
      requires Valid()
      modifies this`loaded, this`value
      modifies store`dirIdentity, store.dir`place, store.dir`disk, store.dir`nextTemp, store.dir`trail
      ensures Valid() && store.BindingKept()
      ensures ok ==>
                ValidateSettings(canonical, Requested(requested)) && v == Stored(canonical, requested) && loaded &&
                value == v
      ensures !ok ==> loaded == old(loaded) && value == old(value)
      ensures !ValidateSettings(canonical, Requested(requested)) ==> !ok && store.dir.disk == old(store.dir.disk)
      ensures store.dir.Reliable() ==>
                ok ==
                (ValidateSettings(canonical, Requested(requested)) &&
                 Accepted(codec, FILE_NAME, Stored(canonical, requested)) &&
                       old(store.Bound()))
      ensures store.dir.Reliable() && !ok ==> store.dir.disk == old(store.dir.disk)
      ensures ok ==> Entry(store.dir.disk.live, Current(FILE_NAME)) == Generation(codec.encode(v) + [10])
      ensures store.dir.Reliable() && old(Agrees()) && (ok ==> |codec.encode(v)| < MAX_STATE_SIZE) ==> Agrees()
    {
      v := FillMissing(requested);
      v := MigrateConflictPolicy(v, false);
      if !ValidateSettings(canonical, v) { return v, false; }
      v := v.(language := NormalizeLanguage(canonical, v.language));
      AcceptedIsCanonical(canonical, requested);
      ok := store.Write(codec, FILE_NAME, v);
      if !ok { return v, false; }
      value := v;
      loaded := true;
      SetIsFresh(canonical, codec, store.dir.disk.live, v);
    }
  }

  /**
   * A fresh `Get` returns exactly what the last `Set` stored strictly below the size limit, and otherwise what is
   * behind it.
   */
  lemma SetIsFresh(canonical: Languages, c: Codec<Settings>, files: Files, v: Settings)
    requires LawfulLanguages(canonical) && Lawful(c) && Canonical(canonical, v) && |c.encode(v)| <= MAX_STATE_SIZE
    requires Entry(files, Current(FILE_NAME)) == Generation(c.encode(v) + [10])
    ensures var behind := Decoded(c, Entry(files, Previous(FILE_NAME)));
            Fresh(canonical, c, files) == v <==>
            |c.encode(v)| < MAX_STATE_SIZE ||
            NormalizeSettings(canonical, if behind.Some? then behind.value else DefaultSettings()) == v
  {
    FixedPointsAreCanonical(canonical, v);
  }
}
