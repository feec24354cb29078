/**
 * LocalizationService: which language a request is served in, and the
 * translated string for a key in that language, through a per-language cache
 * of the translation map.
 *
 * The current language is chosen by priority: an active `lang` query value,
 * then the signed-in user's stored language, then the `UserLanguage` item the
 * middleware left, then the first active primary subtag of the first
 * Accept-Language value, then the default language's code ("vi" when there is
 * no active default). Every candidate is checked against the languages table
 * with GetByCode and must be active.
 */
module LocalizationService {
  import opened Wrappers
  import opened Text
  import opened Seqs
  import opened Entities
  import opened GenericRepository
  import opened LanguageRepository
  import opened TranslationRepository
  import opened Identity
  import opened Claims

  const CacheKeyPrefix: string := "translations_"
  /** The HttpContext.Items keys the service and the middleware use. */
  const CurrentLanguageItem: string := "CurrentLanguage"
  const UserLanguageItem: string := "UserLanguage"
  /** The code used when no language is the active default. */
  const FallbackLanguageCode: string := "vi"

  /** The parts of an HTTP request the language negotiation reads. */
  datatype HttpRequest = HttpRequest(
    /** The values of the `lang` query parameter, in order. */
    langQuery: seq<string>,
    /** The values of the Accept-Language header, or None when the header is absent. */
    acceptLanguage: Option<seq<string>>)

  /** The request, its user and the per-request Items bag (string values only). */
  class HttpContext {
    const request: HttpRequest
    const user: Principal
    var items: map<string, string>
    /** The culture the middleware installs as the IRequestCultureFeature, if any. */
    var requestCulture: Option<string>

    constructor (request: HttpRequest, user: Principal)
      ensures this.request == request && this.user == user
      ensures items == map[] && requestCulture.None?
    {
      this.request := request;
      this.user := user;
      items := map[];
      requestCulture := None;
    }
  }

  function CacheKey(code: string): string { CacheKeyPrefix + code }

  lemma {:induction false} CacheKeyInjective(a: string, b: string)
    requires CacheKey(a) == CacheKey(b)
    ensures a == b
  {
    assert a == CacheKey(a)[|CacheKeyPrefix|..];
    assert b == CacheKey(b)[|CacheKeyPrefix|..];
  }

  /** `lang != null && lang.IsActive` after GetByCodeAsync(code). */
  predicate IsActiveCode(languages: Table<Language>, code: string) {
    var l := GetByCode(languages, code);
    l.Some? && l.value.data.isActive
  }

  /** GetDefaultLanguageCode: the active default's code, or "vi". */
  function DefaultLanguageCode(languages: Table<Language>): string {
    var d := GetDefault(languages);
    if d.Some? then d.value.data.code else FallbackLanguageCode
  }

  /** Under the unique index on Code the default code names an active language, unless it is the "vi" fallback. */
  lemma {:induction false} DefaultLanguageCodeIsActive(languages: Table<Language>)
    requires languages.WellFormed() && languages.IsUnique(LanguageKeys)
    ensures GetDefault(languages).Some? ==> IsActiveCode(languages, DefaultLanguageCode(languages))
    ensures GetDefault(languages).None? ==> DefaultLanguageCode(languages) == FallbackLanguageCode
  {
    var d := GetDefault(languages);
    if d.Some? {
      AllMembers(languages, d.value);
      GetAllMembers(languages, d.value);
      GetByCodeFindsTheRow(languages, d.value);
    }
  }

  /** One Accept-Language item's code: `l.Split(';')[0].Trim().Split('-')[0].ToLower()`. */
  function LanguageTag(item: string): string {
    Lower(FirstPiece(Trim(FirstPiece(item, ';')), '-'))
  }

  /** The codes of a header value, one per comma-separated item, in order. */
  function HeaderTags(header: string): (r: seq<string>)
    ensures |r| == |Split(header, ',')|
    ensures forall i :: 0 <= i < |r| ==> r[i] == LanguageTag(Split(header, ',')[i])
  {
    Map(Split(header, ','), LanguageTag)
  }

  /** The first code of the list that names an active language. */
  function FirstActiveCode(languages: Table<Language>, codes: seq<string>): (r: Option<string>)
    ensures r.Some? ==> IsActiveCode(languages, r.value)
    ensures r.Some? ==> FirstActiveAt(languages, codes, r.value)
    ensures r.None? <==> forall i :: 0 <= i < |codes| ==> !IsActiveCode(languages, codes[i])
  {
    if codes == [] then None
    else if IsActiveCode(languages, codes[0]) then
      assert codes[0] == codes[0];
      Some(codes[0])
    else
      var r := FirstActiveCode(languages, codes[1..]);
      FirstActiveShift(languages, codes, r);
      r
  }

  /** `v` is the code at some index of the list, and no code before that index is active. */
  ghost predicate FirstActiveAt(languages: Table<Language>, codes: seq<string>, v: string) {
    exists i :: 0 <= i < |codes| && codes[i] == v && forall j :: 0 <= j < i ==> !IsActiveCode(languages, codes[j])
  }

  /** An inactive first code moves the first active code of the tail one place on. */
  lemma {:induction false} FirstActiveShift(languages: Table<Language>, codes: seq<string>, r: Option<string>)
    requires |codes| > 0 && !IsActiveCode(languages, codes[0])
    requires r.Some? ==> FirstActiveAt(languages, codes[1..], r.value)
    requires r.None? <==> forall i :: 0 <= i < |codes[1..]| ==> !IsActiveCode(languages, codes[1..][i])
    ensures r.Some? ==> FirstActiveAt(languages, codes, r.value)
    ensures r.None? <==> forall i :: 0 <= i < |codes| ==> !IsActiveCode(languages, codes[i])
  {
    assert forall i :: 1 <= i < |codes| ==> codes[i] == codes[1..][i - 1];
    if r.Some? {
      var k :| 0 <= k < |codes[1..]| && codes[1..][k] == r.value &&
               forall j :: 0 <= j < k ==> !IsActiveCode(languages, codes[1..][j]);
      assert codes[k + 1] == r.value;
      forall j | 0 <= j < k + 1 ensures !IsActiveCode(languages, codes[j]) {
        if j > 0 { assert codes[j] == codes[1..][j - 1]; }
      }
    }
  }

  /** The `foreach (var langCode in languages)` scan: the first code GetByCode finds active. */
  method ScanActiveCodes(languages: Table<Language>, codes: seq<string>) returns (r: Option<string>)
    ensures r == FirstActiveCode(languages, codes)
  {
    var i := 0;
    while i < |codes|
      invariant 0 <= i <= |codes|
      invariant FirstActiveCode(languages, codes) == FirstActiveCode(languages, codes[i..])
    {
      var lang := GetByCode(languages, codes[i]);
      assert codes[i..][0] == codes[i];
      if lang.Some? && lang.value.data.isActive {
        return Some(codes[i]);
      }
      assert codes[i..][1..] == codes[i + 1..];
      i := i + 1;
    }
    return None;
  }

  /** `Query["lang"].FirstOrDefault()`. */
  function QueryLang(request: HttpRequest): Option<string> {
    if |request.langQuery| > 0 then Some(request.langQuery[0]) else None
  }

  /** The query's language when it is non-empty and active. */
  function ActiveQueryLanguage(languages: Table<Language>, request: HttpRequest): (r: Option<string>)
    ensures r.Some? <==> QueryLang(request).Some? && QueryLang(request).value != "" && IsActiveCode(languages, QueryLang(request).value)
    ensures r.Some? ==> r == QueryLang(request)
  {
    var q := QueryLang(request);
    if q.Some? && q.value != "" && IsActiveCode(languages, q.value) then q else None
  }

  /**
   * The stored, non-empty language of the user an authenticated principal's
   * first `idClaimType` claim names (the NameIdentifier claim in the service).
   */
  function StoredLanguage(identity: Store, user: Principal, idClaimType: string): (r: Option<string>)
    ensures r.Some? ==> r.value != "" && user.IsAuthenticated()
  {
    if !user.IsAuthenticated() then None
    else
      var userId := FindFirst(user, idClaimType);
      if IsNullOrEmpty(userId) then None
      else
        var u := FindById(identity, userId.value);
        if u.Some? && u.value.language != "" then Some(u.value.language) else None
  }

  function ActiveStoredLanguage(languages: Table<Language>, identity: Store, user: Principal, idClaimType: string): Option<string> {
    var l := StoredLanguage(identity, user, idClaimType);
    if l.Some? && IsActiveCode(languages, l.value) then l else None
  }

  /** The signed-in user's stored language, when it is active. */
  function ActiveUserLanguage(languages: Table<Language>, identity: Store, user: Principal): Option<string> {
    ActiveStoredLanguage(languages, identity, user, NameIdentifierType)
  }

  function ActiveItemsLanguage(languages: Table<Language>, items: map<string, string>): Option<string> {
    if UserLanguageItem in items && items[UserLanguageItem] != "" && IsActiveCode(languages, items[UserLanguageItem])
    then Some(items[UserLanguageItem]) else None
  }

  /** `Headers["Accept-Language"].FirstOrDefault()`. */
  function FirstHeaderValue(request: HttpRequest): Option<string> {
    if request.acceptLanguage.Some? && |request.acceptLanguage.value| > 0 then Some(request.acceptLanguage.value[0]) else None
  }

  function ActiveHeaderLanguage(languages: Table<Language>, request: HttpRequest): Option<string> {
    var h := FirstHeaderValue(request);
    if h.Some? && h.value != "" then FirstActiveCode(languages, HeaderTags(h.value)) else None
  }

  /** GetCurrentLanguage for a request: the first source with an active language, in priority order. */
  function CurrentLanguage(languages: Table<Language>, identity: Store, request: HttpRequest, user: Principal,
                           items: map<string, string>): (r: string)
    ensures r == DefaultLanguageCode(languages) || IsActiveCode(languages, r)
    ensures ActiveQueryLanguage(languages, request).Some? ==> r == QueryLang(request).value
    ensures ActiveQueryLanguage(languages, request).None? && ActiveUserLanguage(languages, identity, user).Some?
            ==> r == ActiveUserLanguage(languages, identity, user).value
  {
    var q := ActiveQueryLanguage(languages, request);
    if q.Some? then q.value
    else
      var u := ActiveUserLanguage(languages, identity, user);
      if u.Some? then u.value
      else
        var i := ActiveItemsLanguage(languages, items);
        if i.Some? then i.value
        else
          var h := ActiveHeaderLanguage(languages, request);
          if h.Some? then h.value else DefaultLanguageCode(languages)
  }

  /** The translation map entry for `key`, or the key itself when there is none. */
  function Lookup(translations: map<string, string>, key: string): (r: string)
    ensures key in translations ==> r == translations[key]
    ensures key !in translations ==> r == key
  {
    if key in translations then translations[key] else key
  }

  /** What GetString computes from the database alone: the map of the language, then the lookup with key fallback. */
  function Translate(translations: Table<Translation>, languages: Table<Language>, code: string, key: string): Result<string> {
    var loaded := GetAllTranslationsByLanguageCode(translations, languages, code);
    if loaded.Err? then Err(loaded.error) else Ok(Lookup(loaded.value, key))
  }

  /**
   * Under the unique indexes the lookup never fails; it yields the value of the
   * active translation of `key` in the language with that code, and the key
   * itself when there is none.
   */
  lemma {:induction false} TranslateMeaning(translations: Table<Translation>, languages: Table<Language>, code: string, key: string)
    requires translations.WellFormed() && translations.IsUnique(TranslationKeys) && languages.IsUnique(LanguageKeys)
    ensures Translate(translations, languages, code, key).Ok?
    ensures forall x :: x in translations.All() && InLanguage(languages, code, x) && x.data.key == key ==>
      Translate(translations, languages, code, key) == Ok(x.data.value)
    ensures (forall x :: x in translations.All() && InLanguage(languages, code, x) ==> x.data.key != key) ==>
      Translate(translations, languages, code, key) == Ok(key)
  {
    TranslationsMapMeaning(translations, languages, code);
  }

  /** Every cached map is the one the database yields now for its language. */
  ghost predicate Coherent(cache: map<string, map<string, string>>, translations: Table<Translation>, languages: Table<Language>) {
    forall code :: CacheKey(code) in cache ==> GetAllTranslationsByLanguageCode(translations, languages, code) == Ok(cache[CacheKey(code)])
  }

  /** Removing an entry keeps the cache coherent. */
  lemma {:induction false} RemoveKeepsCoherent(cache: map<string, map<string, string>>, translations: Table<Translation>,
                            languages: Table<Language>, code: string)
    requires Coherent(cache, translations, languages)
    ensures Coherent(cache - {CacheKey(code)}, translations, languages)
  {
  }

  /**
   * After a change of the translations of one language code only, dropping
   * that code's entry restores coherence: this is why the writes clear the
   * entry of the language they touched.
   */
  lemma {:induction false} RemoveRestoresCoherent(cache: map<string, map<string, string>>, before: Table<Translation>,
                                                   after: Table<Translation>, languages: Table<Language>, code: string)
    requires Coherent(cache, before, languages)
    requires forall c :: c != code ==> GetAllTranslationsByLanguageCode(after, languages, c) == GetAllTranslationsByLanguageCode(before, languages, c)
    ensures Coherent(cache - {CacheKey(code)}, after, languages)
  {
    forall c | CacheKey(c) in cache - {CacheKey(code)}
      ensures GetAllTranslationsByLanguageCode(after, languages, c) == Ok((cache - {CacheKey(code)})[CacheKey(c)])
    {
      assert c != code;
      assert GetAllTranslationsByLanguageCode(after, languages, c) == GetAllTranslationsByLanguageCode(before, languages, c);
    }
  }

  /** GetSupportedLanguages: the codes of the active languages, in Code order. */
  function GetSupportedLanguages(languages: Table<Language>): (r: seq<string>)
    ensures forall c :: c in r <==> exists x :: x in languages.All() && IsActive(x) && x.data.code == c
  {
    var active := GetActiveLanguages(languages);
    var r := Map(active, (x: Row<Language>) => x.data.code);
    forall c ensures c in r <==> exists x :: x in languages.All() && IsActive(x) && x.data.code == c {
      if c in r {
        var i :| 0 <= i < |r| && r[i] == c;
        ActiveLanguagesMembers(languages, active[i]);
      }
      if x :| x in languages.All() && IsActive(x) && x.data.code == c {
        ActiveLanguagesMembers(languages, x);
        var i :| 0 <= i < |active| && active[i] == x;
        assert r[i] == c;
      }
    }
    r
  }

  /** Priority 1 of GetCurrentLanguage: the first `lang` value, when non-empty and active. */
  method QueryLanguage(languages: Table<Language>, request: HttpRequest) returns (r: Option<string>)
    ensures r == ActiveQueryLanguage(languages, request)
  {
    var queryLang := QueryLang(request);
    r := None;
    if !IsNullOrEmpty(queryLang) {
      var lang := GetByCode(languages, queryLang.value);
      if lang.Some? && lang.value.data.isActive {
        r := queryLang;
      }
    }
  }

  /** Priority 2: the authenticated user's stored language, when active. */
  method UserLanguagePreference(languages: Table<Language>, identity: Store, user: Principal, idClaimType: string)
    returns (r: Option<string>)
    ensures r == ActiveStoredLanguage(languages, identity, user, idClaimType)
  {
    r := None;
    if user.IsAuthenticated() {
      var userId := FindFirst(user, idClaimType);
      if !IsNullOrEmpty(userId) {
        var u := FindById(identity, userId.value);
        if u.Some? && u.value.language != "" {
          var lang := GetByCode(languages, u.value.language);
          if lang.Some? && lang.value.data.isActive {
            r := Some(u.value.language);
          }
        }
      }
    }
  }

  /** Priority 3: `Items["UserLanguage"]`, when non-empty and active. */
  method ItemsLanguage(languages: Table<Language>, items: map<string, string>) returns (r: Option<string>)
    ensures r == ActiveItemsLanguage(languages, items)
  {
    r := None;
    if UserLanguageItem in items && items[UserLanguageItem] != "" {
      var userLang := items[UserLanguageItem];
      var lang := GetByCode(languages, userLang);
      if lang.Some? && lang.value.data.isActive {
        r := Some(userLang);
      }
    }
  }

  /** Priority 4: the first active code of the first Accept-Language value. */
  method HeaderLanguage(languages: Table<Language>, request: HttpRequest) returns (r: Option<string>)
    ensures r == ActiveHeaderLanguage(languages, request)
  {
    r := None;
    var headerLang := FirstHeaderValue(request);
    if !IsNullOrEmpty(headerLang) {
      r := ScanActiveCodes(languages, HeaderTags(headerLang.value));
    }
  }

  /** The service object: the request it runs in (None outside a request) and the memory cache. */
  class Localizer {
    const context: HttpContext?
    var cache: map<string, map<string, string>>

    constructor (context: HttpContext?, cache: map<string, map<string, string>>)
      ensures this.context == context && this.cache == cache
    {
      this.context := context;
      this.cache := cache;
    }

    /** The current language of the context, or the default code with no context. */
    function Current(languages: Table<Language>, identity: Store): string
      reads this, context
    {
      if context == null then DefaultLanguageCode(languages)
      else CurrentLanguage(languages, identity, context.request, context.user, context.items)
    }

    /** What GetString(key) answers in the current state: the cached map's entry, or a fresh load's. */
    function Served(key: string, translations: Table<Translation>, languages: Table<Language>, identity: Store): Result<string>
      reads this, context
    {
      var code := Current(languages, identity);
      if CacheKey(code) in cache then Ok(Lookup(cache[CacheKey(code)], key)) else Translate(translations, languages, code, key)
    }

    /** The cache after GetString in the current state: the current language's map is added when missing and loadable. */
    function Filled(translations: Table<Translation>, languages: Table<Language>, identity: Store): map<string, map<string, string>>
      reads this, context
    {
      var code := Current(languages, identity);
      var loaded := GetAllTranslationsByLanguageCode(translations, languages, code);
      if CacheKey(code) !in cache && loaded.Ok? then cache[CacheKey(code) := loaded.value] else cache
    }

    /** GetCurrentLanguage. */
    method GetCurrentLanguage(languages: Table<Language>, identity: Store) returns (code: string)
      ensures code == Current(languages, identity)
    {
      if context == null {
        code := DefaultLanguageCode(languages);
        return;
      }
      var found := QueryLanguage(languages, context.request);
      if found.None? {
        found := UserLanguagePreference(languages, identity, context.user, NameIdentifierType);
      }
      if found.None? {
        found := ItemsLanguage(languages, context.items);
      }
      if found.None? {
        found := HeaderLanguage(languages, context.request);
      }
      code := if found.Some? then found.value else DefaultLanguageCode(languages);
    }

    /**
     * GetString: the current language's map, from the cache or else loaded
     * from the database and cached; then the key's translation, or the key.
     * A coherent cache stays coherent and gives what the database gives.
     */
    method GetString(key: string, translations: Table<Translation>, languages: Table<Language>, identity: Store)
      returns (r: Result<string>)
      modifies this
      ensures var code := old(Current(languages, identity));
        if CacheKey(code) in old(cache) then r == Ok(Lookup(old(cache)[CacheKey(code)], key)) && cache == old(cache)
        else
          var loaded := GetAllTranslationsByLanguageCode(translations, languages, code);
          r == Translate(translations, languages, code, key) &&
          cache == (if loaded.Ok? then old(cache)[CacheKey(code) := loaded.value] else old(cache))
      ensures Coherent(old(cache), translations, languages) ==>
        Coherent(cache, translations, languages) && r == Translate(translations, languages, old(Current(languages, identity)), key)
    {
      var languageCode := GetCurrentLanguage(languages, identity);
      var cacheKey := CacheKey(languageCode);
      var dict: map<string, string>;
      if cacheKey in cache {
        dict := cache[cacheKey];
      } else {
        var loaded := GetAllTranslationsByLanguageCode(translations, languages, languageCode);
        if loaded.Err? {
          r := Err(loaded.error);
          return;
        }
        dict := loaded.value;
        forall c | CacheKey(c) == cacheKey ensures c == languageCode {
          CacheKeyInjective(c, languageCode);
        }
        cache := cache[cacheKey := dict];
      }
      r := Ok(Lookup(dict, key));
    }

    /** SetLanguage: for an active code inside a request, record it in Items and drop its cached map. */
    method SetLanguage(languageCode: string, languages: Table<Language>)
      modifies this, context
      ensures context != null && IsActiveCode(languages, languageCode) ==>
        context.items == old(context.items)[CurrentLanguageItem := languageCode] &&
        cache == old(cache) - {CacheKey(languageCode)}
      ensures !(context != null && IsActiveCode(languages, languageCode)) ==> cache == old(cache)
      ensures context != null && !IsActiveCode(languages, languageCode) ==> context.items == old(context.items)
      ensures context != null ==> context.requestCulture == old(context.requestCulture)
    {
      if context != null {
        var lang := GetByCode(languages, languageCode);
        if lang.Some? && lang.value.data.isActive {
          context.items := context.items[CurrentLanguageItem := languageCode];
          cache := cache - {CacheKey(languageCode)};
        }
      }
    }
  }

  /** The query, when active, decides alone: the user, the Items and the header do not matter. */
  lemma {:induction false} QueryWins(languages: Table<Language>, identity: Store, request: HttpRequest, user: Principal,
                  items: map<string, string>, identity2: Store, user2: Principal, items2: map<string, string>,
                  header2: Option<seq<string>>)
    requires ActiveQueryLanguage(languages, request).Some?
    ensures CurrentLanguage(languages, identity, request, user, items)
         == CurrentLanguage(languages, identity2, request.(acceptLanguage := header2), user2, items2)
  {
    assert QueryLang(request.(acceptLanguage := header2)) == QueryLang(request);
  }

  /** An anonymous request is never served in a stored user language. */
  lemma {:induction false} AnonymousIgnoresStore(languages: Table<Language>, identity: Store, identity2: Store, request: HttpRequest,
                              user: Principal, items: map<string, string>)
    requires !user.IsAuthenticated()
    ensures CurrentLanguage(languages, identity, request, user, items) == CurrentLanguage(languages, identity2, request, user, items)
  {
  }

  /** The q-value and any other parameter of an item do not change its code. */
  lemma {:induction false} QValueIgnored(item: string, parameters: string)
    requires ';' !in item
    ensures LanguageTag(item + [';'] + parameters) == LanguageTag(item)
  {
    FirstPieceBefore(item, ';', parameters);
    FirstPieceWhole(item, ';');
  }

  lemma {:induction false} TrimNoWhiteSpace(s: string)
    requires forall i :: 0 <= i < |s| ==> !IsWhiteSpace(s[i])
    ensures Trim(s) == s
  {
    assert TrimStart(s) == s;
    assert TrimEnd(s) == s;
  }

  /** Only the primary subtag counts, lowercased: "en-US" and "EN-gb" both give "en". */
  lemma {:induction false} PrimarySubtag(primary: string, region: string)
    requires '-' !in primary
    requires forall c :: c in primary + ['-'] + region ==> !IsWhiteSpace(c) && c != ';'
    ensures LanguageTag(primary + ['-'] + region) == Lower(primary)
  {
    var s := primary + ['-'] + region;
    assert ';' !in s;
    FirstPieceWhole(s, ';');
    assert forall i :: 0 <= i < |s| ==> !IsWhiteSpace(s[i]) by {
      forall i | 0 <= i < |s| ensures !IsWhiteSpace(s[i]) {
        assert s[i] in s;
      }
    }
    TrimNoWhiteSpace(s);
    assert Trim(FirstPiece(s, ';')) == s;
    FirstPieceBefore(primary, '-', region);
  }
}
