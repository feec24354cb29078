/**
 * ProductRepository: lookups of products by their unique ProductCode. Matching is
 * exact (ordinal, case-sensitive) equality and skips soft-deleted rows.
 */
module ProductRepository {
  import opened Wrappers
  import opened Entities
  import opened GenericRepository

  function CodeOf(p: Product): string { p.productCode }

  /** GetByProductCodeAsync: the first active product whose ProductCode equals `code`. */
  function GetByProductCode(t: Table<Product>, code: string): (r: Option<Row<Product>>)
    ensures r.Some? ==> r.value in t.All() && r.value.data.productCode == code && !r.value.isDeleted
    ensures r.None? <==> forall i :: 0 <= i < |t.All()| ==> t.All()[i].data.productCode != code || t.All()[i].isDeleted
  {
    t.FirstActive(CodeOf, code)
  }

  /** ExistsByProductCodeAsync. */
  predicate ExistsByProductCode(t: Table<Product>, code: string) {
    t.AnyActive(CodeOf, code)
  }

  lemma {:induction false} ExistsByProductCodeIff(t: Table<Product>, code: string)
    ensures ExistsByProductCode(t, code) <==> GetByProductCode(t, code).Some?
  {
    AnyActiveIffFirstActive(t, CodeOf, code);
  }

  /** The unique index on ProductCode. */
  lemma {:induction false} CodeIsUnique(t: Table<Product>)
    requires t.IsUnique(ProductKeys)
    ensures t.UniqueOn(CodeOf)
  {
    forall a, b | a in t.rows && b in t.rows && a != b
      ensures CodeOf(t.rows[a].data) != CodeOf(t.rows[b].data)
    {
      assert CodeOf(t.rows[a].data) in ProductKeys(t.rows[a].data);
    }
  }

  /** Under the unique index, GetByProductCodeAsync finds the active product holding the code. */
  lemma {:induction false} GetByProductCodeFindsTheRow(t: Table<Product>, r: Row<Product>)
    requires t.WellFormed() && t.IsUnique(ProductKeys) && r in t.GetAll()
    ensures GetByProductCode(t, r.data.productCode) == Some(r)
  {
    GetAllMembers(t, r);
    CodeIsUnique(t);
    FirstActiveIsTheRow(t, CodeOf, r);
  }

  /** Once the product holding a code is soft-deleted, the code no longer exists. */
  lemma {:induction false} DeletedCodeGone(t: Table<Product>, id: Guid, now: Time)
    requires t.WellFormed() && t.IsUnique(ProductKeys) && id in t.rows
    ensures !ExistsByProductCode(t.SoftDeleted(id, now), t.rows[id].data.productCode)
  {
    CodeIsUnique(t);
    SoftDeletedValueGone(t, CodeOf, id, now);
  }

  /**
   * Matching is exact, ordinal equality: when every active product holds
   * the code `c`, a different code, even one differing only in letter case,
   * is not found, while `c` is found iff some product is active.
   */
  lemma {:induction false} CodeMatchIsCaseSensitive(t: Table<Product>, c: string, c2: string)
    requires t.WellFormed()
    requires forall id :: id in t.rows && !t.rows[id].isDeleted ==> t.rows[id].data.productCode == c
    requires c2 != c
    ensures !ExistsByProductCode(t, c2)
    ensures ExistsByProductCode(t, c) <==> exists id :: id in t.rows && !t.rows[id].isDeleted
  {
    ExistsByProductCodeIff(t, c2);
    if GetByProductCode(t, c2).Some? {
      AllMembers(t, GetByProductCode(t, c2).value);
    }
    ExistsByProductCodeIff(t, c);
    if exists id :: id in t.rows && !t.rows[id].isDeleted {
      var id :| id in t.rows && !t.rows[id].isDeleted;
      AllMembers(t, t.rows[id]);
      var k :| 0 <= k < |t.All()| && t.All()[k] == t.rows[id];
    }
    if GetByProductCode(t, c).Some? {
      AllMembers(t, GetByProductCode(t, c).value);
    }
  }
}
