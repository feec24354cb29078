/**
 * TranslationRepository: translations by key and language. A lookup through
 * the Language navigation is a join with the languages table, so it sees only
 * translations whose language row exists and is not deleted.
 */
module TranslationRepository {
  import opened Wrappers
  import opened Entities
  import opened Seqs
  import opened GenericRepository

  function KeyAndLanguageOf(x: Translation): (string, Guid) { (x.key, x.languageId) }

  /** GetByKeyAndLanguageIdAsync. */
  function GetByKeyAndLanguageId(t: Table<Translation>, key: string, languageId: Guid): (r: Option<Row<Translation>>)
    ensures r.Some? ==> r.value in t.All() && r.value.data.key == key && r.value.data.languageId == languageId && !r.value.isDeleted
    ensures r.None? <==> forall i :: 0 <= i < |t.All()| ==>
      !(t.All()[i].data.key == key && t.All()[i].data.languageId == languageId && !t.All()[i].isDeleted)
  {
    t.FirstActive(KeyAndLanguageOf, (key, languageId))
  }

  /** ExistsByKeyAndLanguageIdAsync. */
  predicate ExistsByKeyAndLanguageId(t: Table<Translation>, key: string, languageId: Guid) {
    t.AnyActive(KeyAndLanguageOf, (key, languageId))
  }

  lemma {:induction false} ExistsByKeyAndLanguageIdIff(t: Table<Translation>, key: string, languageId: Guid)
    ensures ExistsByKeyAndLanguageId(t, key, languageId) <==> GetByKeyAndLanguageId(t, key, languageId).Some?
  {
    AnyActiveIffFirstActive(t, KeyAndLanguageOf, (key, languageId));
  }

  /** x.Language.Code == code && !x.IsDeleted && !x.Language.IsDeleted. */
  predicate InLanguage(languages: Table<Language>, code: string, x: Row<Translation>) {
    && !x.isDeleted
    && x.data.languageId in languages.rows
    && languages.rows[x.data.languageId].data.code == code
    && !languages.rows[x.data.languageId].isDeleted
  }

  /** GetByKeyAndLanguageCodeAsync. */
  function GetByKeyAndLanguageCode(t: Table<Translation>, languages: Table<Language>, key: string, code: string)
    : (r: Option<Row<Translation>>)
    ensures r.Some? ==> r.value in t.All() && r.value.data.key == key && InLanguage(languages, code, r.value)
    ensures r.None? <==> forall i :: 0 <= i < |t.All()| ==> !(t.All()[i].data.key == key && InLanguage(languages, code, t.All()[i]))
  {
    First(t.All(), (x: Row<Translation>) => x.data.key == key && InLanguage(languages, code, x))
  }

  /** ToDictionary(t => t.Key, t => t.Value): throws ArgumentException on a repeated key. */
  function ToDictionary(xs: seq<Row<Translation>>): (r: Result<map<string, string>>)
    ensures r.Ok? <==> forall i, j :: 0 <= i < j < |xs| ==> xs[i].data.key != xs[j].data.key
    ensures r.Err? ==> r.error == DuplicateKey
    ensures r.Ok? ==> forall k :: k in r.value <==> exists i :: 0 <= i < |xs| && xs[i].data.key == k
    ensures r.Ok? ==> forall i :: 0 <= i < |xs| ==> r.value[xs[i].data.key] == xs[i].data.value
  {
    if xs == [] then Ok(map[])
    else
      var rest := ToDictionary(xs[1..]);
      assert forall i :: 1 <= i < |xs| ==> xs[i] == xs[1..][i - 1];
      if rest.Err? then rest
      else if xs[0].data.key in rest.value then Err(DuplicateKey)
      else Ok(rest.value[xs[0].data.key := xs[0].data.value])
  }

  /** The rows GetAllTranslationsByLanguageCodeAsync loads, in table order. */
  function TranslationsOf(t: Table<Translation>, languages: Table<Language>, code: string): (r: seq<Row<Translation>>)
    ensures forall i :: 0 <= i < |r| ==> r[i] in t.All() && InLanguage(languages, code, r[i])
    ensures forall i :: 0 <= i < |t.All()| && InLanguage(languages, code, t.All()[i]) ==> t.All()[i] in r
  {
    Filter(t.All(), (x: Row<Translation>) => InLanguage(languages, code, x))
  }

  /** GetAllTranslationsByLanguageCodeAsync. */
  function GetAllTranslationsByLanguageCode(t: Table<Translation>, languages: Table<Language>, code: string)
    : Result<map<string, string>>
  {
    ToDictionary(TranslationsOf(t, languages, code))
  }

  /** Under the unique indexes on (Key, LanguageId) and on Code, the translations of one code have distinct keys. */
  lemma {:induction false} ActiveKeysDistinct(t: Table<Translation>, languages: Table<Language>, code: string)
    requires t.WellFormed() && t.IsUnique(TranslationKeys) && languages.IsUnique(LanguageKeys)
    ensures var xs := TranslationsOf(t, languages, code);
      forall i, j :: 0 <= i < j < |xs| ==> xs[i].data.key != xs[j].data.key
  {
    var xs := TranslationsOf(t, languages, code);
    AllNoDuplicates(t);
    FilterNoDuplicates(t.All(), (x: Row<Translation>) => InLanguage(languages, code, x));
    forall i, j | 0 <= i < j < |xs| ensures xs[i].data.key != xs[j].data.key {
      var a, b := xs[i], xs[j];
      assert a != b;
      AllMembers(t, a);
      AllMembers(t, b);
      var la, lb := a.data.languageId, b.data.languageId;
      assert languages.rows[la].data.code in LanguageKeys(languages.rows[la].data);
      assert languages.rows[lb].data.code in LanguageKeys(languages.rows[lb].data);
      assert (a.data.key, la) in TranslationKeys(a.data);
      assert (b.data.key, lb) in TranslationKeys(b.data);
    }
  }

  /**
   * ... so the map is built without error, and it maps k to v exactly when an
   * active translation (k, v) of the active language with that code exists.
   */
  lemma {:induction false} TranslationsMapMeaning(t: Table<Translation>, languages: Table<Language>, code: string)
    requires t.WellFormed() && t.IsUnique(TranslationKeys) && languages.IsUnique(LanguageKeys)
    ensures GetAllTranslationsByLanguageCode(t, languages, code).Ok?
    ensures forall x :: x in t.All() && InLanguage(languages, code, x) ==>
      x.data.key in GetAllTranslationsByLanguageCode(t, languages, code).value &&
      GetAllTranslationsByLanguageCode(t, languages, code).value[x.data.key] == x.data.value
    ensures forall k :: k in GetAllTranslationsByLanguageCode(t, languages, code).value ==>
      exists x :: x in t.All() && InLanguage(languages, code, x) && x.data.key == k &&
        GetAllTranslationsByLanguageCode(t, languages, code).value[k] == x.data.value
  {
    var xs := TranslationsOf(t, languages, code);
    ActiveKeysDistinct(t, languages, code);
    var m := ToDictionary(xs).value;
    forall x | x in t.All() && InLanguage(languages, code, x)
      ensures x.data.key in m && m[x.data.key] == x.data.value
    {
      var j :| 0 <= j < |t.All()| && t.All()[j] == x;
      var i :| 0 <= i < |xs| && xs[i] == x;
    }
    forall k | k in m
      ensures exists x :: x in t.All() && InLanguage(languages, code, x) && x.data.key == k && m[k] == x.data.value
    {
      var i :| 0 <= i < |xs| && xs[i].data.key == k;
      assert xs[i] in t.All();
    }
  }
}
