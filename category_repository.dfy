/**
 * CategoryRepository: lookups of categories by their unique Code. Matching is
 * exact (ordinal, case-sensitive) equality and skips soft-deleted rows.
 */
module CategoryRepository {
  import opened Wrappers
  import opened Entities
  import opened GenericRepository

  function CodeOf(c: Category): string { c.code }

  /** GetByCodeAsync: the first active category whose Code equals `code`. */
  function GetByCode(t: Table<Category>, code: string): (r: Option<Row<Category>>)
    ensures r.Some? ==> r.value in t.All() && r.value.data.code == code && !r.value.isDeleted
    ensures r.None? <==> forall i :: 0 <= i < |t.All()| ==> t.All()[i].data.code != code || t.All()[i].isDeleted
  {
    t.FirstActive(CodeOf, code)
  }

  /** ExistsByCodeAsync. */
  predicate ExistsByCode(t: Table<Category>, code: string) {
    t.AnyActive(CodeOf, code)
  }

  lemma {:induction false} ExistsByCodeIff(t: Table<Category>, code: string)
    ensures ExistsByCode(t, code) <==> GetByCode(t, code).Some?
  {
    AnyActiveIffFirstActive(t, CodeOf, code);
  }

  /** The unique index on Code. */
  lemma {:induction false} CodeIsUnique(t: Table<Category>)
    requires t.IsUnique(CategoryKeys)
    ensures t.UniqueOn(CodeOf)
  {
    forall a, b | a in t.rows && b in t.rows && a != b
      ensures CodeOf(t.rows[a].data) != CodeOf(t.rows[b].data)
    {
      assert CodeOf(t.rows[a].data) in CategoryKeys(t.rows[a].data);
    }
  }

  /** Under the unique index, GetByCodeAsync finds the active category holding the code. */
  lemma {:induction false} GetByCodeFindsTheRow(t: Table<Category>, r: Row<Category>)
    requires t.WellFormed() && t.IsUnique(CategoryKeys) && r in t.GetAll()
    ensures GetByCode(t, r.data.code) == Some(r)
  {
    GetAllMembers(t, r);
    CodeIsUnique(t);
    FirstActiveIsTheRow(t, CodeOf, r);
  }

  /** Once the category holding a code is soft-deleted, the code no longer exists. */
  lemma {:induction false} DeletedCodeGone(t: Table<Category>, id: Guid, now: Time)
    requires t.WellFormed() && t.IsUnique(CategoryKeys) && id in t.rows
    ensures !ExistsByCode(t.SoftDeleted(id, now), t.rows[id].data.code)
  {
    CodeIsUnique(t);
    SoftDeletedValueGone(t, CodeOf, id, now);
  }

  /**
   * Matching is exact, ordinal equality: when every active category holds
   * the code `c`, a different code, even one differing only in letter case,
   * is not found, while `c` is found iff some category is active.
   */
  lemma {:induction false} CodeMatchIsCaseSensitive(t: Table<Category>, c: string, c2: string)
    requires t.WellFormed()
    requires forall id :: id in t.rows && !t.rows[id].isDeleted ==> t.rows[id].data.code == c
    requires c2 != c
    ensures !ExistsByCode(t, c2)
    ensures ExistsByCode(t, c) <==> exists id :: id in t.rows && !t.rows[id].isDeleted
  {
    ExistsByCodeIff(t, c2);
    if GetByCode(t, c2).Some? {
      AllMembers(t, GetByCode(t, c2).value);
    }
    ExistsByCodeIff(t, c);
    if exists id :: id in t.rows && !t.rows[id].isDeleted {
      var id :| id in t.rows && !t.rows[id].isDeleted;
      AllMembers(t, t.rows[id]);
      var k :| 0 <= k < |t.All()| && t.All()[k] == t.rows[id];
    }
    if GetByCode(t, c).Some? {
      AllMembers(t, GetByCode(t, c).value);
    }
  }
}
