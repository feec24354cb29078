/**
 * LanguageService: the language listings and the translation writes. Each
 * write clears, through LocalizationService.SetLanguage, the cached map of
 * the language it touched, so that the cache stays coherent with the
 * database as long as it runs inside a request and that language is active.
 */
module LanguageService {
  import opened Wrappers
  import opened Entities
  import opened Seqs
  import opened Sorting
  import opened GenericRepository
  import opened LanguageRepository
  import opened TranslationRepository
  import opened LocalizationService
  import Identity

  datatype CreateTranslationRequest = CreateTranslationRequest(key: string, value: string, languageCode: string)

  datatype TranslationResponse = TranslationResponse(id: Guid, key: string, value: string, languageCode: string, createdAt: Time)

  // -------------------------------------------------------------- queries

  /** GetAllLanguagesAsync: the active, not deleted languages, by Code. */
  function GetAllLanguages(languages: Table<Language>): (r: seq<Row<Language>>)
    ensures SortedBy(r, CodeKey, true)
    ensures forall x :: x in r <==> x in languages.All() && x.data.isActive && !x.isDeleted
  {
    var r := GetActiveLanguages(languages);
    forall x ensures x in r <==> x in languages.All() && x.data.isActive && !x.isDeleted {
      ActiveLanguagesMembers(languages, x);
    }
    r
  }

  /** GetLanguageByCodeAsync: found whether active or not, never when deleted. */
  function GetLanguageByCode(languages: Table<Language>, code: string): (r: Option<Row<Language>>)
    ensures r.Some? ==> r.value in languages.All() && r.value.data.code == code && !r.value.isDeleted
    ensures r.None? <==> forall i :: 0 <= i < |languages.All()| ==> languages.All()[i].data.code != code || languages.All()[i].isDeleted
  {
    GetByCode(languages, code)
  }

  /** GetTranslationAsync: the response carries the requested code. */
  function GetTranslation(translations: Table<Translation>, languages: Table<Language>, key: string, code: string)
    : (r: Option<TranslationResponse>)
    ensures r.None? <==> forall i :: 0 <= i < |translations.All()| ==>
      !(translations.All()[i].data.key == key && InLanguage(languages, code, translations.All()[i]))
    ensures r.Some? ==> (r.value.key == key && r.value.languageCode == code &&
      exists x :: x in translations.All() && InLanguage(languages, code, x) && x.id == r.value.id &&
                  x.data.key == key && x.data.value == r.value.value && x.createdAt == r.value.createdAt)
  {
    var t := GetByKeyAndLanguageCode(translations, languages, key, code);
    if t.None? then None
    else Some(TranslationResponse(t.value.id, t.value.data.key, t.value.data.value, code, t.value.createdAt))
  }

  /** `language?.Code ?? string.Empty` after GetByIdAsync, which finds deleted languages too. */
  function LanguageCodeOf(languages: Table<Language>, languageId: Guid): (r: string)
    ensures languageId !in languages.rows ==> r == ""
    ensures languageId in languages.rows ==> r == languages.rows[languageId].data.code
  {
    var l := languages.GetById(languageId);
    if l.Some? then l.value.data.code else ""
  }

  /** GetTranslationByIdAsync: also finds a soft-deleted translation. */
  function GetTranslationById(translations: Table<Translation>, languages: Table<Language>, id: Guid)
    : (r: Option<TranslationResponse>)
    ensures r.None? <==> id !in translations.rows
    ensures r.Some? ==> var x := translations.rows[id];
      r.value == TranslationResponse(id, x.data.key, x.data.value, LanguageCodeOf(languages, x.data.languageId), x.createdAt)
  {
    var t := translations.GetById(id);
    if t.None? then None
    else Some(TranslationResponse(id, t.value.data.key, t.value.data.value,
                                  LanguageCodeOf(languages, t.value.data.languageId), t.value.createdAt))
  }

  // ------------------------------------------------------- cache coherence

  /** The translation counts, if at all, only for the language code `code`. */
  predicate BelongsTo(languages: Table<Language>, code: string, x: Translation) {
    x.languageId in languages.rows && !languages.rows[x.languageId].isDeleted ==> languages.rows[x.languageId].data.code == code
  }

  /** Inserting a row of language `code` leaves the map of every other code as it was. */
  lemma {:induction false} InsertKeepsOtherCodes(t: Table<Translation>, languages: Table<Language>, row: Row<Translation>, code: string)
    requires t.WellFormed() && row.id !in t.rows && BelongsTo(languages, code, row.data)
    ensures forall c :: c != code ==>
      GetAllTranslationsByLanguageCode(t.Inserted(row), languages, c) == GetAllTranslationsByLanguageCode(t, languages, c)
  {
    InsertedWellFormed(t, row);
    forall c | c != code
      ensures GetAllTranslationsByLanguageCode(t.Inserted(row), languages, c) == GetAllTranslationsByLanguageCode(t, languages, c)
    {
      FilterAppendRejected(t.All(), row, (x: Row<Translation>) => InLanguage(languages, c, x));
    }
  }

  /** Replacing a row of language `code` by another of that language leaves every other code's map as it was. */
  lemma {:induction false} ReplaceKeepsOtherCodes(t: Table<Translation>, languages: Table<Language>, row: Row<Translation>, code: string)
    requires t.WellFormed() && row.id in t.rows
    requires BelongsTo(languages, code, row.data) && BelongsTo(languages, code, t.rows[row.id].data)
    ensures forall c :: c != code ==>
      GetAllTranslationsByLanguageCode(t.Replaced(row), languages, c) == GetAllTranslationsByLanguageCode(t, languages, c)
  {
    ReplacedWellFormed(t, row);
    AllAt(t);
    forall c | c != code
      ensures GetAllTranslationsByLanguageCode(t.Replaced(row), languages, c) == GetAllTranslationsByLanguageCode(t, languages, c)
    {
      var p := (x: Row<Translation>) => InLanguage(languages, c, x);
      forall k | 0 <= k < |t.All()|
        ensures t.Replaced(row).All()[k] == t.All()[k] || (!p(t.Replaced(row).All()[k]) && !p(t.All()[k]))
      {
        if t.order[k] == row.id {
          assert t.All()[k] == t.rows[row.id];
        }
      }
      FilterPointwise(t.Replaced(row).All(), t.All(), p);
    }
  }

  /** Keys equal to the row's own never clash under a unique index. */
  lemma {:induction false} SameKeysNeverClash(t: Table<Translation>, id: Guid, d: Translation)
    requires t.IsUnique(TranslationKeys) && id in t.rows && TranslationKeys(d) == TranslationKeys(t.rows[id].data)
    ensures !t.Clashes(TranslationKeys, id, d)
  {
  }

  /** A new (Key, LanguageId) clashes exactly with a row, deleted or not, holding that pair. */
  lemma {:induction false} TranslationClashesIff(t: Table<Translation>, id: Guid, d: Translation)
    ensures t.Clashes(TranslationKeys, id, d) <==>
      exists other :: other in t.rows && other != id && t.rows[other].data.key == d.key && t.rows[other].data.languageId == d.languageId
  {
    if t.Clashes(TranslationKeys, id, d) {
      var other :| other in t.rows && other != id && !(TranslationKeys(t.rows[other].data) !! TranslationKeys(d));
    }
    if other :| other in t.rows && other != id && t.rows[other].data.key == d.key && t.rows[other].data.languageId == d.languageId {
      assert (d.key, d.languageId) in TranslationKeys(t.rows[other].data);
    }
  }

  /** The live language with that Id and its code, when there is one. */
  predicate LiveLanguage(languages: Table<Language>, languageId: Guid) {
    languageId in languages.rows && !languages.rows[languageId].isDeleted
  }

  // ---------------------------------------------------------------- writes

  /** The exception a throw with a GetString message raises: GetString's own failure, else the intended one. */
  function Raised(message: Result<string>, error: Error): (e: Error)
    ensures message.Ok? ==> e == error
  {
    if message.Err? then message.error else error
  }

  /**
   * A throw whose message GetString builds: the current language's map is
   * loaded and cached when missing, and a failure to load it is what is
   * raised. Under the unique indexes the intended exception is raised.
   */
  method Throw<T>(localizer: Localizer, error: Error, translations: Table<Translation>, languages: Table<Language>,
                  identity: Identity.Store) returns (r: Result<T>)
    requires error.KeyNotFound? || error.InvalidOperation?
    modifies localizer
    ensures r == Err(Raised(old(localizer.Served(error.key, translations, languages, identity)), error))
    ensures localizer.cache == old(localizer.Filled(translations, languages, identity))
    ensures Coherent(old(localizer.cache), translations, languages) ==> Coherent(localizer.cache, translations, languages)
    ensures translations.WellFormed() && translations.IsUnique(TranslationKeys) && languages.IsUnique(LanguageKeys) ==>
      r == Err(error)
  {
    var message := localizer.GetString(error.key, translations, languages, identity);
    if translations.WellFormed() && translations.IsUnique(TranslationKeys) && languages.IsUnique(LanguageKeys) {
      TranslateMeaning(translations, languages, old(localizer.Current(languages, identity)), error.key);
    }
    r := Err(Raised(message, error));
  }

  /**
   * CreateTranslationAsync: refused for an unknown or inactive language and
   * for a key the language already has; a soft-deleted translation with the
   * same key still holds the unique index, so the save is refused. Otherwise
   * one translation is added and the language's cached map dropped. The two
   * checks throw with a GetString message (see Throw).
   */
  method CreateTranslation(languages: Table<Language>, repo: Repository<Translation, (string, Guid)>, localizer: Localizer,
                           identity: Identity.Store, request: CreateTranslationRequest, now: Time) returns (r: Result<TranslationResponse>)
    requires repo.Valid() && repo.keysOf == TranslationKeys && languages.WellFormed()
    modifies repo, localizer, localizer.context
    ensures repo.Valid()
    ensures !IsActiveCode(languages, request.languageCode) ==>
      r == Err(Raised(old(localizer.Served("LanguageNotSupported", repo.table, languages, identity)), KeyNotFound("LanguageNotSupported")))
      && localizer.cache == old(localizer.Filled(repo.table, languages, identity))
    ensures IsActiveCode(languages, request.languageCode) &&
            ExistsByKeyAndLanguageId(old(repo.table), request.key, GetByCode(languages, request.languageCode).value.id) ==>
      r == Err(Raised(old(localizer.Served("TranslationKeyExists", repo.table, languages, identity)), InvalidOperation("TranslationKeyExists")))
      && localizer.cache == old(localizer.Filled(repo.table, languages, identity))
    ensures IsActiveCode(languages, request.languageCode) &&
            !ExistsByKeyAndLanguageId(old(repo.table), request.key, GetByCode(languages, request.languageCode).value.id) ==>
      (r.Err? <==> exists other :: other in old(repo.table.rows) && old(repo.table.rows[other].data.key) == request.key
                                   && old(repo.table.rows[other].data.languageId) == GetByCode(languages, request.languageCode).value.id)
      && (r.Err? ==> r == Err(DbUpdateConflict) && localizer.cache == old(localizer.cache))
    ensures languages.IsUnique(LanguageKeys) && !IsActiveCode(languages, request.languageCode) ==> r == Err(KeyNotFound("LanguageNotSupported"))
    ensures languages.IsUnique(LanguageKeys) && IsActiveCode(languages, request.languageCode) &&
            ExistsByKeyAndLanguageId(old(repo.table), request.key, GetByCode(languages, request.languageCode).value.id)
            ==> r == Err(InvalidOperation("TranslationKeyExists"))
    ensures r.Err? ==> repo.table == old(repo.table)
    ensures r.Err? && Coherent(old(localizer.cache), old(repo.table), languages) ==> Coherent(localizer.cache, repo.table, languages)
    ensures r.Err? && localizer.context != null ==> localizer.context.items == old(localizer.context.items)
    ensures r.Ok? ==> (IsActiveCode(languages, request.languageCode) && r.value.id !in old(repo.table.rows)
      && r.value == TranslationResponse(r.value.id, request.key, request.value, request.languageCode, now)
      && repo.table == old(repo.table).Inserted(NewTranslation(languages, request, r.value.id, now)))
    ensures r.Ok? && localizer.context != null ==>
      localizer.cache == old(localizer.cache) - {CacheKey(request.languageCode)} &&
      localizer.context.items == old(localizer.context.items)[CurrentLanguageItem := request.languageCode]
    ensures r.Ok? && localizer.context == null ==> localizer.cache == old(localizer.cache)
    ensures localizer.context != null ==> localizer.context.requestCulture == old(localizer.context.requestCulture)
  {
    var language := GetByCode(languages, request.languageCode);
    if language.None? || !language.value.data.isActive {
      r := Throw(localizer, KeyNotFound("LanguageNotSupported"), repo.table, languages, identity);
      return;
    }
    var existing := GetByKeyAndLanguageId(repo.table, request.key, language.value.id);
    ExistsByKeyAndLanguageIdIff(repo.table, request.key, language.value.id);
    if existing.Some? {
      r := Throw(localizer, InvalidOperation("TranslationKeyExists"), repo.table, languages, identity);
      return;
    }
    r := AddTranslation(languages, repo, localizer, request, now);
  }

  /** The insertion and cache step of CreateTranslationAsync, once both checks have passed. */
  method AddTranslation(languages: Table<Language>, repo: Repository<Translation, (string, Guid)>, localizer: Localizer,
                        request: CreateTranslationRequest, now: Time) returns (r: Result<TranslationResponse>)
    requires repo.Valid() && repo.keysOf == TranslationKeys && IsActiveCode(languages, request.languageCode)
    modifies repo, localizer, localizer.context
    ensures repo.Valid()
    ensures r.Err? <==> exists other :: other in old(repo.table.rows) && old(repo.table.rows[other].data.key) == request.key
                                   && old(repo.table.rows[other].data.languageId) == GetByCode(languages, request.languageCode).value.id
    ensures r.Err? ==> r == Err(DbUpdateConflict) && repo.table == old(repo.table) && localizer.cache == old(localizer.cache)
    ensures r.Err? && localizer.context != null ==> localizer.context.items == old(localizer.context.items)
    ensures r.Ok? ==> (r.value.id !in old(repo.table.rows)
      && r.value == TranslationResponse(r.value.id, request.key, request.value, request.languageCode, now)
      && repo.table == old(repo.table).Inserted(NewTranslation(languages, request, r.value.id, now)))
    ensures r.Ok? && localizer.context != null ==>
      localizer.cache == old(localizer.cache) - {CacheKey(request.languageCode)} &&
      localizer.context.items == old(localizer.context.items)[CurrentLanguageItem := request.languageCode]
    ensures r.Ok? && localizer.context == null ==> localizer.cache == old(localizer.cache)
    ensures localizer.context != null ==> localizer.context.requestCulture == old(localizer.context.requestCulture)
  {
    var language := GetByCode(languages, request.languageCode);
    ghost var before := repo.table;
    var row, ok := repo.AddAsync(Translation(request.key, request.value, language.value.id), now);
    TranslationClashesIff(before, row.id, row.data);
    if !ok {
      return Err(DbUpdateConflict);
    }
    localizer.SetLanguage(request.languageCode, languages);
    r := Ok(TranslationResponse(row.id, request.key, request.value, request.languageCode, row.createdAt));
  }

  /** The row CreateTranslationAsync adds: the request's Key and Value under the language's Id. */
  function NewTranslation(languages: Table<Language>, request: CreateTranslationRequest, id: Guid, now: Time): Row<Translation>
    requires IsActiveCode(languages, request.languageCode)
  {
    Row(id, now, None, false, Translation(request.key, request.value, GetByCode(languages, request.languageCode).value.id))
  }

  /**
   * UpdateTranslationAsync: an unknown id is refused with a GetString
   * message; otherwise only Value
   * and UpdatedAt change, deleted or not; inside a request, the language's
   * code, when non-empty and active, becomes the current language and its
   * cached map is dropped.
   */
  method UpdateTranslation(languages: Table<Language>, repo: Repository<Translation, (string, Guid)>, localizer: Localizer,
                           identity: Identity.Store, id: Guid, value: string, now: Time) returns (r: Result<TranslationResponse>)
    requires repo.Valid() && repo.keysOf == TranslationKeys
    modifies repo, localizer, localizer.context
    ensures repo.Valid()
    ensures id !in old(repo.table.rows) ==>
      r == Err(Raised(old(localizer.Served("TranslationNotFound", repo.table, languages, identity)), KeyNotFound("TranslationNotFound")))
      && repo.table == old(repo.table) && localizer.cache == old(localizer.Filled(repo.table, languages, identity))
      && (Coherent(old(localizer.cache), old(repo.table), languages) ==> Coherent(localizer.cache, repo.table, languages))
      && (languages.IsUnique(LanguageKeys) ==> r == Err(KeyNotFound("TranslationNotFound")))
    ensures id !in old(repo.table.rows) && localizer.context != null ==> localizer.context.items == old(localizer.context.items)
    ensures id in old(repo.table.rows) ==>
      var x := old(repo.table.rows[id]);
      var code := LanguageCodeOf(languages, x.data.languageId);
      && r == Ok(TranslationResponse(id, x.data.key, value, code, x.createdAt))
      && repo.table == old(repo.table).Replaced(Updated(x, value, now))
      && localizer.cache == (if localizer.context != null && code != "" && IsActiveCode(languages, code)
                             then old(localizer.cache) - {CacheKey(code)} else old(localizer.cache))
    ensures id in old(repo.table.rows) && localizer.context != null ==>
      var code := LanguageCodeOf(languages, old(repo.table.rows[id]).data.languageId);
      localizer.context.items == (if code != "" && IsActiveCode(languages, code)
                                  then old(localizer.context.items)[CurrentLanguageItem := code] else old(localizer.context.items))
    ensures localizer.context != null ==> localizer.context.requestCulture == old(localizer.context.requestCulture)
  {
    var found := repo.table.GetById(id);
    if found.None? {
      r := Throw(localizer, KeyNotFound("TranslationNotFound"), repo.table, languages, identity);
      return;
    }
    var translation := found.value;
    var changed := translation.(data := translation.data.(value := value));
    SameKeysNeverClash(repo.table, id, changed.data);
    var updated, ok := repo.UpdateAsync(changed, now);
    assert ok;
    var languageCode := LanguageCodeOf(languages, translation.data.languageId);
    if languageCode != "" {
      localizer.SetLanguage(languageCode, languages);
    }
    r := Ok(TranslationResponse(updated.id, updated.data.key, updated.data.value, languageCode, updated.createdAt));
  }

  /** The new version UpdateTranslationAsync stores. */
  function Updated(x: Row<Translation>, value: string, now: Time): Row<Translation> {
    x.(updatedAt := Some(now), data := x.data.(value := value))
  }

  /**
   * DeleteTranslationAsync: an unknown id is refused with a GetString
   * message; otherwise the
   * translation is soft-deleted; inside a request, when its language row
   * exists and is active, that code becomes the current language and its
   * cached map is dropped.
   */
  method DeleteTranslation(languages: Table<Language>, repo: Repository<Translation, (string, Guid)>, localizer: Localizer,
                           identity: Identity.Store, id: Guid, now: Time) returns (r: Result<()>)
    requires repo.Valid()
    modifies repo, localizer, localizer.context
    ensures repo.Valid()
    ensures id !in old(repo.table.rows) ==>
      r == Err(Raised(old(localizer.Served("TranslationNotFound", repo.table, languages, identity)), KeyNotFound("TranslationNotFound")))
      && repo.table == old(repo.table) && localizer.cache == old(localizer.Filled(repo.table, languages, identity))
      && (Coherent(old(localizer.cache), old(repo.table), languages) ==> Coherent(localizer.cache, repo.table, languages))
      && (repo.keysOf == TranslationKeys && languages.IsUnique(LanguageKeys) ==> r == Err(KeyNotFound("TranslationNotFound")))
    ensures id !in old(repo.table.rows) && localizer.context != null ==> localizer.context.items == old(localizer.context.items)
    ensures id in old(repo.table.rows) ==>
      var languageId := old(repo.table.rows[id].data.languageId);
      var code := LanguageCodeOf(languages, languageId);
      && r == Ok(())
      && repo.table == old(repo.table).SoftDeleted(id, now)
      && localizer.cache == (if localizer.context != null && languageId in languages.rows && IsActiveCode(languages, code)
                             then old(localizer.cache) - {CacheKey(code)} else old(localizer.cache))
    ensures id in old(repo.table.rows) && localizer.context != null ==>
      var languageId := old(repo.table.rows[id].data.languageId);
      var code := LanguageCodeOf(languages, languageId);
      localizer.context.items == (if languageId in languages.rows && IsActiveCode(languages, code)
                                  then old(localizer.context.items)[CurrentLanguageItem := code] else old(localizer.context.items))
    ensures localizer.context != null ==> localizer.context.requestCulture == old(localizer.context.requestCulture)
  {
    var found := repo.table.GetById(id);
    if found.None? {
      r := Throw(localizer, KeyNotFound("TranslationNotFound"), repo.table, languages, identity);
      return;
    }
    var translation := found.value;
    repo.DeleteAsync(id, now);
    var language := languages.GetById(translation.data.languageId);
    if language.Some? {
      localizer.SetLanguage(language.value.data.code, languages);
    }
    r := Ok(());
  }

  /** A change to a translation whose language is gone or deleted changes no code's map. */
  lemma {:induction false} NoLiveLanguageKeepsAll(t: Table<Translation>, languages: Table<Language>, row: Row<Translation>)
    requires t.WellFormed() && row.id in t.rows && row.data.languageId == t.rows[row.id].data.languageId
    requires !LiveLanguage(languages, row.data.languageId)
    ensures forall c :: GetAllTranslationsByLanguageCode(t.Replaced(row), languages, c) == GetAllTranslationsByLanguageCode(t, languages, c)
  {
    forall c ensures GetAllTranslationsByLanguageCode(t.Replaced(row), languages, c) == GetAllTranslationsByLanguageCode(t, languages, c) {
      ReplaceKeepsOtherCodes(t, languages, row, c + "-");
      assert c != c + "-";
    }
  }

  /** A create inside a request keeps a coherent cache coherent: only the new row's language changed, and its entry is dropped. */
  lemma {:induction false} CreateKeepsCoherent(cache: map<string, map<string, string>>, t: Table<Translation>, languages: Table<Language>,
                            request: CreateTranslationRequest, id: Guid, now: Time)
    requires t.WellFormed() && languages.WellFormed() && id !in t.rows
    requires IsActiveCode(languages, request.languageCode) && Coherent(cache, t, languages)
    ensures Coherent(cache - {CacheKey(request.languageCode)}, t.Inserted(NewTranslation(languages, request, id, now)), languages)
  {
    var language := GetByCode(languages, request.languageCode).value;
    var row := Row(id, now, None, false, Translation(request.key, request.value, language.id));
    AllMembers(languages, language);
    InsertKeepsOtherCodes(t, languages, row, request.languageCode);
    RemoveRestoresCoherent(cache, t, t.Inserted(row), languages, request.languageCode);
  }

  /**
   * An update inside a request keeps a coherent cache coherent when the
   * translation's language is gone or deleted, or its code names an active
   * language; for an inactive language the stale entry stays.
   */
  lemma {:induction false} UpdateKeepsCoherent(cache: map<string, map<string, string>>, t: Table<Translation>, languages: Table<Language>,
                            id: Guid, value: string, now: Time)
    requires t.WellFormed() && id in t.rows && Coherent(cache, t, languages)
    requires var code := LanguageCodeOf(languages, t.rows[id].data.languageId);
      !LiveLanguage(languages, t.rows[id].data.languageId) || (code != "" && IsActiveCode(languages, code))
    ensures var code := LanguageCodeOf(languages, t.rows[id].data.languageId);
      Coherent(if code != "" && IsActiveCode(languages, code) then cache - {CacheKey(code)} else cache,
               t.Replaced(Updated(t.rows[id], value, now)), languages)
  {
    var x := t.rows[id];
    var code := LanguageCodeOf(languages, x.data.languageId);
    var u := Updated(x, value, now);
    if LiveLanguage(languages, x.data.languageId) {
      ReplaceKeepsOtherCodes(t, languages, u, code);
      RemoveRestoresCoherent(cache, t, t.Replaced(u), languages, code);
    } else {
      NoLiveLanguageKeepsAll(t, languages, u);
      if code != "" && IsActiveCode(languages, code) {
        RemoveKeepsCoherent(cache, t.Replaced(u), languages, code);
      }
    }
  }

  /** The same for a delete: the soft-deleted row leaves only its own language's map. */
  lemma {:induction false} DeleteKeepsCoherent(cache: map<string, map<string, string>>, t: Table<Translation>, languages: Table<Language>,
                            id: Guid, now: Time)
    requires t.WellFormed() && id in t.rows && Coherent(cache, t, languages)
    requires var languageId := t.rows[id].data.languageId;
      !LiveLanguage(languages, languageId) || IsActiveCode(languages, LanguageCodeOf(languages, languageId))
    ensures var languageId := t.rows[id].data.languageId;
      var code := LanguageCodeOf(languages, languageId);
      Coherent(if languageId in languages.rows && IsActiveCode(languages, code) then cache - {CacheKey(code)} else cache,
               t.SoftDeleted(id, now), languages)
  {
    var x := t.rows[id];
    var code := LanguageCodeOf(languages, x.data.languageId);
    var d := x.(isDeleted := true, updatedAt := Some(now));
    assert t.SoftDeleted(id, now) == t.Replaced(d);
    if LiveLanguage(languages, x.data.languageId) {
      ReplaceKeepsOtherCodes(t, languages, d, code);
      RemoveRestoresCoherent(cache, t, t.Replaced(d), languages, code);
    } else {
      NoLiveLanguageKeepsAll(t, languages, d);
      if x.data.languageId in languages.rows && IsActiveCode(languages, code) {
        RemoveKeepsCoherent(cache, t.Replaced(d), languages, code);
      }
    }
  }

  // ------------------------------------------------- what GetString serves

  /** After a create, the language serves the new value for the key. */
  lemma {:induction false} CreatedTranslationIsServed(t: Table<Translation>, languages: Table<Language>, request: CreateTranslationRequest,
                                   id: Guid, now: Time)
    requires t.WellFormed() && t.IsUnique(TranslationKeys) && languages.WellFormed() && languages.IsUnique(LanguageKeys)
    requires IsActiveCode(languages, request.languageCode) && id !in t.rows
    requires !t.Clashes(TranslationKeys, id, NewTranslation(languages, request, id, now).data)
    ensures Translate(t.Inserted(NewTranslation(languages, request, id, now)), languages, request.languageCode, request.key)
         == Ok(request.value)
  {
    var language := GetByCode(languages, request.languageCode).value;
    var row := Row(id, now, None, false, Translation(request.key, request.value, language.id));
    AllMembers(languages, language);
    InsertedWellFormed(t, row);
    InsertedUnique(t, TranslationKeys, row);
    assert row in t.Inserted(row).All();
    TranslateMeaning(t.Inserted(row), languages, request.languageCode, request.key);
  }

  /** After an update of a live translation of a live language, its code serves the new value. */
  lemma {:induction false} UpdatedTranslationIsServed(t: Table<Translation>, languages: Table<Language>, id: Guid, value: string, now: Time)
    requires t.WellFormed() && t.IsUnique(TranslationKeys) && languages.IsUnique(LanguageKeys)
    requires id in t.rows && !t.rows[id].isDeleted && LiveLanguage(languages, t.rows[id].data.languageId)
    ensures var x := t.rows[id];
      Translate(t.Replaced(Updated(x, value, now)), languages,
                LanguageCodeOf(languages, x.data.languageId), x.data.key) == Ok(value)
  {
    var x := t.rows[id];
    var updated := Updated(x, value, now);
    ReplacedWellFormed(t, updated);
    SameKeysNeverClash(t, id, updated.data);
    ReplacedUnique(t, TranslationKeys, updated);
    AllMembers(t.Replaced(updated), updated);
    TranslateMeaning(t.Replaced(updated), languages, LanguageCodeOf(languages, x.data.languageId), x.data.key);
  }

  /** After a delete, the translation's language falls back to the key itself. */
  lemma {:induction false} DeletedTranslationFallsBack(t: Table<Translation>, languages: Table<Language>, id: Guid, now: Time)
    requires t.WellFormed() && t.IsUnique(TranslationKeys) && languages.WellFormed() && languages.IsUnique(LanguageKeys)
    requires id in t.rows && LiveLanguage(languages, t.rows[id].data.languageId)
    ensures var x := t.rows[id];
      Translate(t.SoftDeleted(id, now), languages, LanguageCodeOf(languages, x.data.languageId), x.data.key) == Ok(x.data.key)
  {
    var x := t.rows[id];
    var code := LanguageCodeOf(languages, x.data.languageId);
    var u := t.SoftDeleted(id, now);
    var deleted := x.(isDeleted := true, updatedAt := Some(now));
    ReplacedWellFormed(t, deleted);
    SameKeysNeverClash(t, id, deleted.data);
    ReplacedUnique(t, TranslationKeys, deleted);
    CodeIsUnique(languages);
    forall y | y in u.All() && InLanguage(languages, code, y) ensures y.data.key != x.data.key {
      AllMembers(u, y);
      if y.id != id {
        assert u.rows[y.id] == t.rows[y.id];
      }
    }
    TranslateMeaning(u, languages, code, x.data.key);
  }
}
