/**
 * LocalizationMiddleware: picks the request culture once per request and
 * stores it in Items["CurrentLanguage"] and Items["UserLanguage"] and as the
 * request culture feature.
 *
 * Its order differs from LocalizationService.GetCurrentLanguage: a non-empty
 * `lang` query value decides alone (an inactive one leaves the default), else
 * a present Accept-Language header decides alone (all its values, joined with
 * commas), and only without both does the signed-in user's stored language
 * count.
 */
module LocalizationMiddleware {
  import opened Wrappers
  import opened Text
  import opened Entities
  import opened GenericRepository
  import opened Identity
  import opened Claims
  import opened LanguageRepository
  import opened LocalizationService

  /** `Headers["Accept-Language"].ToString()`: the header's values joined with commas. */
  function HeaderString(values: seq<string>): string { Join(values, ',') }

  /** The culture InvokeAsync chooses. */
  function MiddlewareCulture(languages: Table<Language>, identity: Store, request: HttpRequest, user: Principal): (r: string)
    ensures r == DefaultLanguageCode(languages) || IsActiveCode(languages, r)
    ensures QueryLang(request).Some? && QueryLang(request).value != "" ==>
      r == (if IsActiveCode(languages, QueryLang(request).value) then QueryLang(request).value else DefaultLanguageCode(languages))
  {
    var defaultCulture := DefaultLanguageCode(languages);
    var q := QueryLang(request);
    if q.Some? && q.value != "" then
      if IsActiveCode(languages, q.value) then q.value else defaultCulture
    else if request.acceptLanguage.Some? then
      var t := FirstActiveCode(languages, HeaderTags(HeaderString(request.acceptLanguage.value)));
      if t.Some? then t.value else defaultCulture
    else
      var u := ActiveUserLanguage(languages, identity, user);
      if u.Some? then u.value else defaultCulture
  }

  /** The culture selection of InvokeAsync, step by step. */
  method SelectCulture(languages: Table<Language>, identity: Store, request: HttpRequest, user: Principal)
    returns (culture: string)
    ensures culture == MiddlewareCulture(languages, identity, request, user)
  {
    var defaultCulture := DefaultLanguageCode(languages);
    culture := defaultCulture;
    var queryLang := QueryLang(request);
    if !IsNullOrEmpty(queryLang) {
      var lang := GetByCode(languages, queryLang.value);
      if lang.Some? && lang.value.data.isActive {
        culture := queryLang.value;
      }
    } else if request.acceptLanguage.Some? {
      var acceptLanguage := HeaderString(request.acceptLanguage.value);
      var found := ScanActiveCodes(languages, HeaderTags(acceptLanguage));
      if found.Some? {
        culture := found.value;
      }
    } else {
      var preference := UserLanguagePreference(languages, identity, user, NameIdentifierType);
      if preference.Some? {
        culture := preference.value;
      }
    }
  }

  /** InvokeAsync, up to the call of the next middleware. */
  method InvokeAsync(context: HttpContext, languages: Table<Language>, identity: Store)
    modifies context
    ensures var culture := MiddlewareCulture(languages, identity, context.request, context.user);
      context.items == old(context.items)[CurrentLanguageItem := culture][UserLanguageItem := culture] &&
      context.requestCulture == Some(culture)
  {
    var culture := SelectCulture(languages, identity, context.request, context.user);
    context.items := context.items[CurrentLanguageItem := culture][UserLanguageItem := culture];
    context.requestCulture := Some(culture);
  }

  /** A present header takes the decision away from the signed-in user, active language or not. */
  lemma {:induction false} HeaderHidesUser(languages: Table<Language>, identity: Store, identity2: Store, request: HttpRequest,
                        user: Principal, user2: Principal)
    requires QueryLang(request).None? || QueryLang(request).value == ""
    requires request.acceptLanguage.Some?
    ensures MiddlewareCulture(languages, identity, request, user) == MiddlewareCulture(languages, identity2, request, user2)
  {
  }

  /** The stored user language counts only with no query value and no header. */
  lemma {:induction false} UserLanguageOnlyAsLastResort(languages: Table<Language>, identity: Store, request: HttpRequest, user: Principal)
    requires ActiveUserLanguage(languages, identity, user).Some?
    requires (QueryLang(request).None? || QueryLang(request).value == "") && request.acceptLanguage.None?
    ensures MiddlewareCulture(languages, identity, request, user) == ActiveUserLanguage(languages, identity, user).value
  {
  }

  /**
   * The two orders disagree: with no query value, a single header value
   * naming an active language and a signed-in user whose stored language is
   * active, the middleware takes the header's language and the service the
   * user's.
   */
  lemma {:induction false} OrdersDisagree(languages: Table<Language>, identity: Store, request: HttpRequest, user: Principal,
                       items: map<string, string>)
    requires QueryLang(request).None?
    requires request.acceptLanguage.Some? && |request.acceptLanguage.value| == 1
    requires ActiveHeaderLanguage(languages, request).Some?
    requires ActiveUserLanguage(languages, identity, user).Some?
    ensures MiddlewareCulture(languages, identity, request, user) == ActiveHeaderLanguage(languages, request).value
    ensures CurrentLanguage(languages, identity, request, user, items) == ActiveUserLanguage(languages, identity, user).value
  {
    MiddlewareTakesSingleHeader(languages, identity, request, user);
  }

  lemma {:induction false} MiddlewareTakesSingleHeader(languages: Table<Language>, identity: Store, request: HttpRequest, user: Principal)
    requires QueryLang(request).None?
    requires request.acceptLanguage.Some? && |request.acceptLanguage.value| == 1
    requires ActiveHeaderLanguage(languages, request).Some?
    ensures MiddlewareCulture(languages, identity, request, user) == ActiveHeaderLanguage(languages, request).value
  {
    var h := request.acceptLanguage.value[0];
    assert request.acceptLanguage.value == [h];
    assert HeaderString(request.acceptLanguage.value) == h;
  }

  /**
   * After the middleware ran, the service, when neither the query nor the
   * user's stored language decides, serves the culture the middleware chose,
   * provided that culture names an active language.
   */
  lemma {:induction false} ServiceFollowsMiddleware(languages: Table<Language>, identity: Store, request: HttpRequest, user: Principal,
                                 items: map<string, string>)
    requires ActiveQueryLanguage(languages, request).None? && ActiveUserLanguage(languages, identity, user).None?
    requires var c := MiddlewareCulture(languages, identity, request, user); c != "" && IsActiveCode(languages, c)
    ensures var c := MiddlewareCulture(languages, identity, request, user);
      CurrentLanguage(languages, identity, request, user, items[CurrentLanguageItem := c][UserLanguageItem := c]) == c
  {
  }
}
