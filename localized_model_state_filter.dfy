/**
 * LocalizedModelStateFilter: before an action runs, every validation error
 * message in an invalid ModelState is replaced by a localized message. A
 * message is classified by keywords of its lower-cased text and of its
 * lower-cased field name, first match in source order, into a
 * `Validation.*` resource key; a message that matches no keyword group stays
 * as it is.
 */
module LocalizedModelStateFilter {
  import opened Text
  import opened Seqs
  import opened LocalizationService

  /** The resource keys the classifier can choose; `Name()` is the key's text. */
  datatype MessageKey =
    | UsernameOrEmailRequired | PasswordRequired | EmailRequired | ConfirmPasswordRequired
    | ProductCodeRequired | ProductNameRequired | PermissionNameRequired | ResourceRequired
    | ActionRequired | RoleNameRequired | PermissionIdsRequired | LanguageCodeRequired
    | TranslationKeyRequired | TranslationValueRequired | Required
    | InvalidEmail
    | PasswordMinLength | MinLength
    | ProductCodeMaxLength | ProductNameMaxLength | ImageMaxLength | PermissionNameMaxLength
    | DescriptionMaxLength | ResourceMaxLength | ActionMaxLength | TranslationKeyMaxLength | MaxLength
    | PasswordsDoNotMatch
    | LanguageCodeLength | Range
  {
    /** The keys of the "required" group (source lines 75-104). */
    predicate IsRequiredKey() {
      match this
      case UsernameOrEmailRequired | PasswordRequired | EmailRequired | ConfirmPasswordRequired
         | ProductCodeRequired | ProductNameRequired | PermissionNameRequired | ResourceRequired
         | ActionRequired | RoleNameRequired | PermissionIdsRequired | LanguageCodeRequired
         | TranslationKeyRequired | TranslationValueRequired | Required => true
      case _ => false
    }

    function Name(): string {
      match this
      case UsernameOrEmailRequired => "Validation.UsernameOrEmailRequired"
      case PasswordRequired => "Validation.PasswordRequired"
      case EmailRequired => "Validation.EmailRequired"
      case ConfirmPasswordRequired => "Validation.ConfirmPasswordRequired"
      case ProductCodeRequired => "Validation.ProductCodeRequired"
      case ProductNameRequired => "Validation.ProductNameRequired"
      case PermissionNameRequired => "Validation.PermissionNameRequired"
      case ResourceRequired => "Validation.ResourceRequired"
      case ActionRequired => "Validation.ActionRequired"
      case RoleNameRequired => "Validation.RoleNameRequired"
      case PermissionIdsRequired => "Validation.PermissionIdsRequired"
      case LanguageCodeRequired => "Validation.LanguageCodeRequired"
      case TranslationKeyRequired => "Validation.TranslationKeyRequired"
      case TranslationValueRequired => "Validation.TranslationValueRequired"
      case Required => "Validation.Required"
      case InvalidEmail => "Validation.InvalidEmail"
      case PasswordMinLength => "Validation.PasswordMinLength"
      case MinLength => "Validation.MinLength"
      case ProductCodeMaxLength => "Validation.ProductCodeMaxLength"
      case ProductNameMaxLength => "Validation.ProductNameMaxLength"
      case ImageMaxLength => "Validation.ImageMaxLength"
      case PermissionNameMaxLength => "Validation.PermissionNameMaxLength"
      case DescriptionMaxLength => "Validation.DescriptionMaxLength"
      case ResourceMaxLength => "Validation.ResourceMaxLength"
      case ActionMaxLength => "Validation.ActionMaxLength"
      case TranslationKeyMaxLength => "Validation.TranslationKeyMaxLength"
      case MaxLength => "Validation.MaxLength"
      case PasswordsDoNotMatch => "Validation.PasswordsDoNotMatch"
      case LanguageCodeLength => "Validation.LanguageCodeLength"
      case Range => "Validation.Range"
    }
  }

  /** What the classifier decides: keep the message, or look a key up. */
  datatype MessageOutcome = Verbatim(message: string) | Key(key: MessageKey)

  // The keyword groups, over the lower-cased message.

  predicate IsRequiredMessage(m: string) { Contains(m, "required") || Contains(m, "bắt buộc") }
  predicate IsInvalidEmailMessage(m: string) { Contains(m, "email") && (Contains(m, "invalid") || Contains(m, "format")) }
  predicate IsMinLengthMessage(m: string) {
    Contains(m, "minlength") || Contains(m, "tối thiểu") || Contains(m, "at least")
  }
  predicate IsMaxLengthMessage(m: string) {
    Contains(m, "maxlength") || Contains(m, "tối đa") || Contains(m, "exceed") || Contains(m, "not exceed")
  }
  predicate IsCompareMessage(m: string) {
    Contains(m, "compare") || Contains(m, "match") || Contains(m, "không khớp") || Contains(m, "do not match")
  }
  predicate IsRangeMessage(m: string) {
    Contains(m, "between") || Contains(m, "phạm vi") || Contains(m, "must be between")
  }

  /** Some keyword group matches the lower-cased message. */
  predicate HasKeyword(m: string) {
    IsRequiredMessage(m) || IsInvalidEmailMessage(m) || IsMinLengthMessage(m) || IsMaxLengthMessage(m)
    || IsCompareMessage(m) || IsRangeMessage(m)
  }

  // The field rules, over the lower-cased field name.

  predicate IsNameField(f: string) { (Contains(f, "permissionname") || Contains(f, "name")) && !Contains(f, "product") }
  predicate IsTranslationKeyField(f: string) {
    Contains(f, "translationkey") || (Contains(f, "key") && Contains(f, "translation"))
  }

  /** The key of a "required" message, by the lower-cased field name. */
  function RequiredKey(f: string): (k: MessageKey)
    ensures k.IsRequiredKey()
  {
    if Contains(f, "username") || (Contains(f, "email") && Contains(f, "or")) then UsernameOrEmailRequired
    else if Contains(f, "password") && !Contains(f, "confirm") then PasswordRequired
    else if Contains(f, "email") then EmailRequired
    else if Contains(f, "confirmpassword") || (Contains(f, "confirm") && Contains(f, "password")) then ConfirmPasswordRequired
    else if Contains(f, "productcode") then ProductCodeRequired
    else if Contains(f, "productname") then ProductNameRequired
    else if IsNameField(f) then PermissionNameRequired
    else if Contains(f, "resource") then ResourceRequired
    else if Contains(f, "action") then ActionRequired
    else if Contains(f, "rolename") then RoleNameRequired
    else if Contains(f, "permissionids") then PermissionIdsRequired
    else if Contains(f, "language") then LanguageCodeRequired
    else if IsTranslationKeyField(f) then TranslationKeyRequired
    else if Contains(f, "translationvalue") || (Contains(f, "value") && Contains(f, "translation")) then TranslationValueRequired
    else Required
  }

  function MinLengthKey(f: string): (k: MessageKey)
    ensures k == PasswordMinLength || k == MinLength
  {
    if Contains(f, "password") then PasswordMinLength else MinLength
  }

  function MaxLengthKey(f: string): (k: MessageKey)
    ensures !k.IsRequiredKey()
  {
    if Contains(f, "productcode") then ProductCodeMaxLength
    else if Contains(f, "productname") then ProductNameMaxLength
    else if Contains(f, "image") then ImageMaxLength
    else if IsNameField(f) then PermissionNameMaxLength
    else if Contains(f, "description") then DescriptionMaxLength
    else if Contains(f, "resource") then ResourceMaxLength
    else if Contains(f, "action") then ActionMaxLength
    else if IsTranslationKeyField(f) then TranslationKeyMaxLength
    else MaxLength
  }

  function RangeKey(f: string): (k: MessageKey)
    ensures k == LanguageCodeLength || k == Range
  {
    if Contains(f, "language") then LanguageCodeLength else Range
  }

  /** The classification TranslateErrorMessage makes, before the key is looked up. */
  function Classify(message: string, field: string): (r: MessageOutcome)
    ensures r.Verbatim? ==> r.message == message
    ensures message == "" ==> r == Verbatim(message)
  {
    if message == "" then Verbatim(message)
    else
      var m := Lower(message);
      var f := Lower(field);
      if IsRequiredMessage(m) then Key(RequiredKey(f))
      else if IsInvalidEmailMessage(m) then Key(InvalidEmail)
      else if IsMinLengthMessage(m) then Key(MinLengthKey(f))
      else if IsMaxLengthMessage(m) then Key(MaxLengthKey(f))
      else if IsCompareMessage(m) then Key(PasswordsDoNotMatch)
      else if IsRangeMessage(m) then Key(RangeKey(f))
      else Verbatim(message)
  }

  /**
   * TranslateErrorMessage: the chosen key looked up in the current language's
   * translations with key fallback, as LocalizationService.GetString serves it.
   */
  function TranslateErrorMessage(message: string, field: string, dict: map<string, string>): (r: string)
    ensures Classify(message, field).Key? ==> r == Lookup(dict, Classify(message, field).key.Name())
    ensures Classify(message, field).Verbatim? ==> r == message
  {
    match Classify(message, field)
    case Verbatim(m) => m
    case Key(k) => Lookup(dict, k.Name())
  }

  /** An empty message is returned unchanged. */
  lemma {:induction false} EmptyMessageUnchanged(field: string, dict: map<string, string>)
    ensures TranslateErrorMessage("", field, dict) == ""
  {
  }

  /**
   * A non-empty message containing "required" (in any case) always gets a key
   * of the required group, chosen by the field alone: none of the later
   * groups' keywords in the same message changes it.
   */
  lemma {:induction false} RequiredTakesPrecedence(message: string, field: string)
    requires message != "" && IsRequiredMessage(Lower(message))
    ensures Classify(message, field) == Key(RequiredKey(Lower(field)))
    ensures Classify(message, field).key.IsRequiredKey()
  {
  }

  /** A message is kept verbatim exactly when it is empty or matches no keyword group. */
  lemma {:induction false} VerbatimIff(message: string, field: string)
    ensures Classify(message, field).Verbatim? <==> message == "" || !HasKeyword(Lower(message))
  {
  }

  /** A window occurrence of `t` in `u` and of `u` in `s` gives one of `t` in `s`. */
  lemma {:induction false} ContainsTransitive(s: string, u: string, t: string)
    requires Contains(s, u) && Contains(u, t)
    ensures Contains(s, t)
  {
    ContainsIff(s, u);
    ContainsIff(u, t);
    ContainsIff(s, t);
    var i :| OccursAt(s, u, i);
    var j :| OccursAt(u, t, j);
    forall k | 0 <= k < |t| ensures s[i + j + k] == t[k] {
      assert s[i..i + |u|][j + k] == u[j + k];
      assert u[j..j + |t|][k] == t[k];
    }
    assert s[i + j..i + j + |t|] == t;
    assert OccursAt(s, t, i + j);
  }

  /**
   * RoleNameRequired is chosen only for a field naming both "rolename" and
   * "product": any other field containing "rolename" also contains "name" and
   * is taken by the PermissionNameRequired rule first.
   */
  lemma {:induction false} RoleNameNeedsProduct(f: string)
    requires RequiredKey(f) == RoleNameRequired
    ensures Contains(f, "rolename") && Contains(f, "product")
  {
    assert OccursAt("rolename", "name", 4);
    ContainsIff("rolename", "name");
    ContainsTransitive(f, "rolename", "name");
  }

  /**
   * A string with no occurrence of the character `c` contains no string that
   * holds `c`.
   */
  lemma {:induction false} NotContainsByChar(s: string, t: string, c: char)
    requires c in t && c !in s
    ensures !Contains(s, t)
  {
    ContainsIff(s, t);
  }

  /**
   * A string whose first window is not `t` and whose later characters never
   * equal the first character of `t` does not contain `t`.
   */
  lemma {:induction false} NotContainsFromStart(s: string, t: string)
    requires |s| > 0 && |t| > 0 && t[0] !in s[1..] && !StartsWith(s, t)
    ensures !Contains(s, t)
  {
    ContainsIff(s, t);
  }

  /** The words of the field rules that occur in "productrolename". */
  lemma {:induction false} ProductRoleNameHas(f: string)
    requires f == "productrolename"
    ensures Contains(f, "rolename") && Contains(f, "product")
  {
    assert OccursAt(f, "rolename", 7) && OccursAt(f, "product", 0);
    ContainsIff(f, "rolename");
    ContainsIff(f, "product");
  }

  /** Earlier rules' words missing from "productrolename" for want of one character. */
  lemma {:induction false} ProductRoleNameLacksAccountWords(f: string)
    requires f == "productrolename"
    ensures !Contains(f, "username") && !Contains(f, "email") && !Contains(f, "password") && !Contains(f, "confirm")
    ensures !Contains(f, "confirmpassword")
  {
    NotContainsByChar(f, "username", 's');
    NotContainsByChar(f, "email", 'i');
    NotContainsByChar(f, "password", 's');
    NotContainsByChar(f, "confirm", 'f');
    NotContainsByChar(f, "confirmpassword", 's');
  }

  /** Likewise for the permission rules' words. */
  lemma {:induction false} ProductRoleNameLacksPermissionWords(f: string)
    requires f == "productrolename"
    ensures !Contains(f, "permissionname") && !Contains(f, "resource") && !Contains(f, "action")
  {
    NotContainsByChar(f, "permissionname", 's');
    NotContainsByChar(f, "resource", 's');
    NotContainsByChar(f, "action", 'i');
  }

  /** "productrolename" holds neither "productcode" nor "productname". */
  lemma {:induction false} ProductRoleNameLacksProductWords(f: string)
    requires f == "productrolename"
    ensures !Contains(f, "productcode") && !Contains(f, "productname")
  {
    assert f[1..] == "roductrolename";
    assert f[..11][7] == 'r';
    NotContainsFromStart(f, "productcode");
    NotContainsFromStart(f, "productname");
  }

  /** The RoleNameRequired rule is reachable: the field "productrolename" selects it. */
  lemma {:induction false} RoleNameReachable(f: string)
    requires f == "productrolename"
    ensures RequiredKey(f) == RoleNameRequired
  {
    ProductRoleNameHas(f);
    ProductRoleNameLacksAccountWords(f);
    ProductRoleNameLacksPermissionWords(f);
    ProductRoleNameLacksProductWords(f);
  }

  /** Each message of one key translated, same count, same order. */
  function TranslateAll(messages: seq<string>, field: string, dict: map<string, string>): (r: seq<string>)
    ensures |r| == |messages|
    ensures forall i :: 0 <= i < |messages| ==> r[i] == TranslateErrorMessage(messages[i], field, dict)
  {
    Map(messages, (m: string) => TranslateErrorMessage(m, field, dict))
  }

  /** Every key's messages translated under that key. */
  function Translated(errors: map<string, seq<string>>, dict: map<string, string>): map<string, seq<string>> {
    map k | k in errors :: TranslateAll(errors[k], k, dict)
  }

  /** ModelState.IsValid: no key holds an error. */
  predicate NoErrors(errors: map<string, seq<string>>) {
    forall k :: k in errors ==> errors[k] == []
  }

  /**
   * Translation keeps the keys and, under each, the number and order of the
   * messages; a state without errors is left exactly as it is.
   */
  lemma {:induction false} TranslatedShape(errors: map<string, seq<string>>, dict: map<string, string>)
    ensures Translated(errors, dict).Keys == errors.Keys
    ensures forall k :: k in errors ==> |Translated(errors, dict)[k]| == |errors[k]|
    ensures forall k, i :: k in errors && 0 <= i < |errors[k]| ==>
      Translated(errors, dict)[k][i] == TranslateErrorMessage(errors[k][i], k, dict)
    ensures NoErrors(errors) ==> Translated(errors, dict) == errors
  {
    if NoErrors(errors) {
      forall k | k in errors ensures Translated(errors, dict)[k] == errors[k] {
        assert |Translated(errors, dict)[k]| == 0;
      }
    }
  }

  /** The validation errors of a request, key by key, in the order they were added. */
  class ModelStateDictionary {
    var errors: map<string, seq<string>>

    constructor (errors: map<string, seq<string>>)
      ensures this.errors == errors
    {
      this.errors := errors;
    }

    predicate IsValid()
      reads this
    {
      NoErrors(errors)
    }

    /** Remove: the key and its errors are dropped. */
    method Remove(key: string)
      modifies this
      ensures errors == old(errors) - {key}
    {
      errors := errors - {key};
    }

    /** AddModelError: the message is appended to the key's errors, creating the key when missing. */
    method AddModelError(key: string, message: string)
      modifies this
      ensures errors == old(errors)[key := (if key in old(errors) then old(errors)[key] else []) + [message]]
    {
      var current := if key in errors then errors[key] else [];
      errors := errors[key := current + [message]];
    }
  }

  /** The inner loop of OnActionExecuting: one key's errors, translated one by one. */
  method TranslateErrors(messages: seq<string>, field: string, dict: map<string, string>) returns (translated: seq<string>)
    ensures translated == TranslateAll(messages, field, dict)
  {
    ghost var translate := (m: string) => TranslateErrorMessage(m, field, dict);
    translated := [];
    var i := 0;
    while i < |messages|
      invariant 0 <= i <= |messages|
      invariant translated == Map(messages[..i], translate)
    {
      translated := translated + [TranslateErrorMessage(messages[i], field, dict)];
      MapSnoc(messages[..i], messages[i], translate);
      assert messages[..i + 1] == messages[..i] + [messages[i]];
      i := i + 1;
    }
    assert messages[..i] == messages;
  }

  /** The update loop of OnActionExecuting for one key: Remove, then AddModelError per message. */
  method ReplaceErrors(modelState: ModelStateDictionary, key: string, messages: seq<string>)
    modifies modelState
    ensures modelState.errors == if messages == [] then old(modelState.errors) - {key}
                                 else old(modelState.errors)[key := messages]
  {
    ghost var before := modelState.errors;
    modelState.Remove(key);
    var i := 0;
    while i < |messages|
      invariant 0 <= i <= |messages|
      invariant modelState.errors == if i == 0 then before - {key} else before[key := messages[..i]]
    {
      modelState.AddModelError(key, messages[i]);
      assert messages[..i + 1] == messages[..i] + [messages[i]];
      i := i + 1;
    }
    assert messages[..i] == messages;
  }

  /** The first loop of OnActionExecuting: the translations of every key that holds errors. */
  method CollectTranslations(errors: map<string, seq<string>>, dict: map<string, string>)
    returns (keysToUpdate: map<string, seq<string>>)
    ensures forall k :: k in keysToUpdate <==> k in errors && errors[k] != []
    ensures forall k :: k in keysToUpdate ==> keysToUpdate[k] == Translated(errors, dict)[k]
  {
    keysToUpdate := map[];
    var keys := errors.Keys;
    while keys != {}
      invariant keys <= errors.Keys
      invariant forall k :: k in keysToUpdate <==> k in errors && k !in keys && errors[k] != []
      invariant forall k :: k in keysToUpdate ==> keysToUpdate[k] == Translated(errors, dict)[k]
      decreases |keys|
    {
      var key :| key in keys;
      keys := keys - {key};
      var messages := errors[key];
      if messages != [] {
        var translated := TranslateErrors(messages, key, dict);
        keysToUpdate := keysToUpdate[key := translated];
      }
    }
  }

  /** The second loop of OnActionExecuting: each collected key's errors replaced. */
  method ApplyTranslations(modelState: ModelStateDictionary, keysToUpdate: map<string, seq<string>>)
    requires keysToUpdate.Keys <= modelState.errors.Keys
    requires forall k :: k in keysToUpdate ==> keysToUpdate[k] != []
    modifies modelState
    ensures modelState.errors.Keys == old(modelState.errors.Keys)
    ensures forall k :: k in modelState.errors ==>
      modelState.errors[k] == if k in keysToUpdate then keysToUpdate[k] else old(modelState.errors[k])
  {
    ghost var errors := modelState.errors;
    var pending := keysToUpdate.Keys;
    while pending != {}
      invariant pending <= keysToUpdate.Keys
      invariant modelState.errors.Keys == errors.Keys
      invariant forall k :: k in errors ==>
        modelState.errors[k] == if k in keysToUpdate && k !in pending then keysToUpdate[k] else errors[k]
      decreases |pending|
    {
      var key :| key in pending;
      pending := pending - {key};
      ReplaceErrors(modelState, key, keysToUpdate[key]);
    }
  }

  /** Replacing the keys with errors by their translations gives the translated state. */
  lemma {:induction false} ReplacedIsTranslated(errors: map<string, seq<string>>, keysToUpdate: map<string, seq<string>>,
                             result: map<string, seq<string>>, dict: map<string, string>)
    requires forall k :: k in keysToUpdate <==> k in errors && errors[k] != []
    requires forall k :: k in keysToUpdate ==> keysToUpdate[k] == Translated(errors, dict)[k]
    requires result.Keys == errors.Keys
    requires forall k :: k in result ==> result[k] == if k in keysToUpdate then keysToUpdate[k] else errors[k]
    ensures result == Translated(errors, dict)
  {
    TranslatedShape(errors, dict);
    forall k | k in errors && errors[k] == [] ensures result[k] == Translated(errors, dict)[k] {
      assert |Translated(errors, dict)[k]| == 0;
    }
  }

  /**
   * OnActionExecuting: with an invalid ModelState, every key holding errors
   * gets its messages replaced by their translations, in order.
   */
  method OnActionExecuting(modelState: ModelStateDictionary, dict: map<string, string>)
    modifies modelState
    ensures modelState.errors == if old(modelState.IsValid()) then old(modelState.errors)
                                 else Translated(old(modelState.errors), dict)
    ensures modelState.errors == Translated(old(modelState.errors), dict)
  {
    TranslatedShape(modelState.errors, dict);
    if modelState.IsValid() {
      return;
    }
    ghost var errors := modelState.errors;
    var keysToUpdate := CollectTranslations(modelState.errors, dict);
    TranslatedShape(errors, dict);
    ApplyTranslations(modelState, keysToUpdate);
    ReplacedIsTranslated(errors, keysToUpdate, modelState.errors, dict);
  }
}
