/**
 * LanguageRepository: languages by their unique Code, the default language
 * and the active languages in Code order. Soft-deleted languages are never
 * returned; an inactive one is still found by Code.
 */
module LanguageRepository {
  import opened Wrappers
  import opened Entities
  import opened Seqs
  import opened Sorting
  import opened GenericRepository

  function CodeOf(l: Language): string { l.code }

  /** GetByCodeAsync: the first active-or-inactive, not deleted language with that Code. */
  function GetByCode(t: Table<Language>, code: string): (r: Option<Row<Language>>)
    ensures r.Some? ==> r.value in t.All() && r.value.data.code == code && !r.value.isDeleted
    ensures r.None? <==> forall i :: 0 <= i < |t.All()| ==> t.All()[i].data.code != code || t.All()[i].isDeleted
  {
    t.FirstActive(CodeOf, code)
  }

  /** ExistsByCodeAsync. */
  predicate ExistsByCode(t: Table<Language>, code: string) {
    t.AnyActive(CodeOf, code)
  }

  lemma {:induction false} ExistsByCodeIff(t: Table<Language>, code: string)
    ensures ExistsByCode(t, code) <==> GetByCode(t, code).Some?
  {
    AnyActiveIffFirstActive(t, CodeOf, code);
  }

  /** The unique index on Code. */
  lemma {:induction false} CodeIsUnique(t: Table<Language>)
    requires t.IsUnique(LanguageKeys)
    ensures t.UniqueOn(CodeOf)
  {
    forall a, b | a in t.rows && b in t.rows && a != b
      ensures CodeOf(t.rows[a].data) != CodeOf(t.rows[b].data)
    {
      assert CodeOf(t.rows[a].data) in LanguageKeys(t.rows[a].data);
    }
  }

  /** Under the unique index, GetByCodeAsync finds the language holding the code, active or not. */
  lemma {:induction false} GetByCodeFindsTheRow(t: Table<Language>, r: Row<Language>)
    requires t.WellFormed() && t.IsUnique(LanguageKeys) && r in t.GetAll()
    ensures GetByCode(t, r.data.code) == Some(r)
  {
    GetAllMembers(t, r);
    CodeIsUnique(t);
    FirstActiveIsTheRow(t, CodeOf, r);
  }

  predicate IsActiveDefault(x: Row<Language>) { x.data.isDefault && x.data.isActive && !x.isDeleted }

  /** GetDefaultAsync: the first language that is default, active and not deleted. */
  function GetDefault(t: Table<Language>): (r: Option<Row<Language>>)
    ensures r.Some? ==> r.value in t.All() && r.value.data.isDefault && r.value.data.isActive && !r.value.isDeleted
    ensures r.None? <==> forall i :: 0 <= i < |t.All()| ==> !IsActiveDefault(t.All()[i])
  {
    First(t.All(), IsActiveDefault)
  }

  predicate IsActive(x: Row<Language>) { x.data.isActive && !x.isDeleted }

  function CodeKey(x: Row<Language>): SortKey { TextKey(x.data.code) }

  /** GetActiveLanguagesAsync: the active, not deleted languages, by ascending Code. */
  function GetActiveLanguages(t: Table<Language>): (r: seq<Row<Language>>)
    ensures SortedBy(r, CodeKey, true)
    ensures multiset(r) == multiset(Filter(t.All(), IsActive))
  {
    SortBySorted(Filter(t.All(), IsActive), CodeKey, true);
    SortBy(Filter(t.All(), IsActive), CodeKey, true)
  }

  /** It lists exactly the active, not deleted languages. */
  lemma {:induction false} ActiveLanguagesMembers(t: Table<Language>, x: Row<Language>)
    ensures x in GetActiveLanguages(t) <==> x in t.All() && x.data.isActive && !x.isDeleted
  {
    var active := Filter(t.All(), IsActive);
    assert x in GetActiveLanguages(t) <==> x in multiset(GetActiveLanguages(t));
    assert x in active <==> x in multiset(active);
    if x in active {
      var j :| 0 <= j < |active| && active[j] == x;
    }
    if x in t.All() && IsActive(x) {
      var j :| 0 <= j < |t.All()| && t.All()[j] == x;
    }
  }
}
