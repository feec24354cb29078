/**
 * The persisted entities. Every entity derives from BaseEntity, whose columns
 * (Id, CreatedAt, UpdatedAt, IsDeleted) are the fields of `Row`; the entity's
 * own columns are its `data`. Navigation properties are not stored: they are
 * resolved through the foreign-key columns against the other tables.
 */
module Entities {
  import opened Wrappers

  /** A Guid key; only equality and freshness of Guids matter to the core. */
  type Guid = nat

  /** A UTC instant (DateTime.UtcNow is passed in as `now`). */
  type Time = int

  datatype Row<D> = Row(id: Guid, createdAt: Time, updatedAt: Option<Time>, isDeleted: bool, data: D)

  datatype Category = Category(code: string, description: string)

  datatype Product = Product(productCode: string, productName: string, image: Option<string>, categoryId: Option<Guid>)

  datatype Permission = Permission(name: string, description: string, resource: string, action: string)

  datatype RolePermission = RolePermission(roleId: string, permissionId: Guid)

  datatype Language = Language(code: string, name: string, isActive: bool, isDefault: bool)

  datatype Translation = Translation(key: string, value: string, languageId: Guid)

  /** The columns of each unique index of the database model. */
  function CategoryKeys(c: Category): set<string> { {c.code} }

  function ProductKeys(p: Product): set<string> { {p.productCode} }

  datatype PermissionKey = NameKey(name: string) | ResourceActionKey(resource: string, action: string)

  function PermissionKeys(p: Permission): set<PermissionKey> {
    {NameKey(p.name), ResourceActionKey(p.resource, p.action)}
  }

  function RolePermissionKeys(rp: RolePermission): set<(string, Guid)> { {(rp.roleId, rp.permissionId)} }

  function LanguageKeys(l: Language): set<string> { {l.code} }

  function TranslationKeys(t: Translation): set<(string, Guid)> { {(t.key, t.languageId)} }
}
