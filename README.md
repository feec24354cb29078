# backend_demo core, modelled in Dafny

This project models the rule-bearing core of the backend_demo ASP.NET service
and proves properties of that model. The service keeps product categories,
products, permissions, roles, users, languages and translations behind a REST
API. The model covers the parts below it that decide things:

- **Soft-delete store** (`generic_repository.dfy` and one file per entity
  repository). A `Table` value holds rows by id in insertion order.
  - Deleting a row sets `IsDeleted`.
  - The reads skip deleted rows, except `GetById` and `Exists`.
  - The `Repository` class owns a table and one unique index. `SaveChangesAsync` is all-or-nothing.
  - The unique indexes of `ApplicationDbContext` are not filtered on `IsDeleted`, so a soft-deleted row still holds its key.
- **Filter, sort and page pipeline** (`dynamic_filter.dfy`, `queries.dfy`, `sorting.dfy`, `paging.dfy`, `listing.dfy`).
  - `DynamicFilterHelper` becomes a first-order `Predicate` datatype evaluated over an explicit property schema, in place of reflection and expression trees. Evaluation can fail where the source would throw.
  - The filter loops are proved equal to a conjunction of field predicates, and the search loop to a disjunction.
  - Sorting is a stable insertion sort, proved sorted and a permutation.
  - Page numbers and sizes are clamped. `TotalPages` is ceiling division, and a page is proved to be a window of the filtered rows.
- **Services**: `CategoryService`, `ProductService`, `PermissionService` and `LanguageService` with their uniqueness and not-found checks, and the `DatabaseSeeder` upserts and role-permission reconciliation.
- **Authorization**: the claim list `JwtService.GenerateToken` builds, the algorithm check of `GetPrincipalFromExpiredToken`, and the `RequirePermission` decision.
  - A token issued with a permission passes `RequirePermission` for it.
  - `AuthService` register, login, refresh and language flows run over an abstract identity store (`identity.dfy`).
- **Localization**: language negotiation in `LocalizationService.GetCurrentLanguage` and in `LocalizationMiddleware`, which use different priority orders, and the simplified Accept-Language parse of section 12.5.4 of RFC 9110.
  - `GetString` uses a per-language cache with key fallback. The translation writes keep that cache coherent.
  - `LocalizedModelStateFilter` is a first-match keyword classifier.

Ids (`Guid`) are natural numbers, and a fresh id is one more than the largest
id in use. Times are integer ticks passed in as `now`. Strings are `seq<char>`.

Three behaviours of the code are modelled as written, although they may surprise:
- `PermissionService.AssignPermissionsToRoleAsync` soft-deletes and re-inserts. It does not restore rows as the seeder does (see Findings).
- The product create and update mappings ignore `CategoryId`, and the model does the same.
- `LocalizationMiddleware` is modelled with its authenticated branch, although the pipeline registers it before authentication.

## Model

| member | source | states |
|---|---|---|
| GenericRepository.Table.GetById | Infrastructure/Repositories/Common/Repository.cs:22-25 | the row stored under the key is found whether or not it is soft-deleted; None exactly when no row has that key |
| GenericRepository.GetAllMembers | Infrastructure/Repositories/Common/Repository.cs:27-30 | GetAllAsync lists exactly the stored rows whose IsDeleted flag is false |
| GenericRepository.FindMembers | Infrastructure/Repositories/Common/Repository.cs:32-35 | FindAsync keeps exactly the stored rows that satisfy the predicate and are not soft-deleted |
| GenericRepository.CountWhereAtMostCount | Infrastructure/Repositories/Common/Repository.cs:64-71 | CountAsync() equals the number of rows GetAllAsync lists, and CountAsync(predicate) never exceeds it |
| GenericRepository.ExistsSeesDeleted | Infrastructure/Repositories/Common/Repository.cs:59-62 | ExistsAsync holds iff some stored row satisfies the predicate, soft-deleted rows included |
| GenericRepository.SoftDeleteHides | Infrastructure/Repositories/Common/Repository.cs:51-57 | after DeleteAsync the row is still found by id, flagged deleted and stamped, and GetAllAsync loses exactly that row |
| GenericRepository.SoftDeletedValueGone | Infrastructure/Repositories/Common/Repository.cs:51-57 | once the row holding a unique column value is soft-deleted, no active row holds that value |
| GenericRepository.SoftDeletedAllFacts | Infrastructure/Repositories/Common/Repository.cs:51-57 | staging DeleteAsync on a set of rows keeps every unique index and hides from GetAllAsync exactly those rows |
| GenericRepository.SoftDeleteEach | Infrastructure/Repositories/Common/Repository.cs:51-57 | DeleteAsync applied in turn to each listed row stages the soft deletion of exactly that set of rows |
| GenericRepository.Repository.AddAsync | Infrastructure/Repositories/Common/Repository.cs:37-42 | the new row gets a fresh key, CreatedAt = now, no UpdatedAt, not deleted, and is appended; the commit is refused (table unchanged) iff a unique index would clash |
| GenericRepository.Repository.UpdateAsync | Infrastructure/Repositories/Common/Repository.cs:44-49 | only UpdatedAt changes besides the caller's data; the commit is refused iff a unique index would clash |
| GenericRepository.Repository.DeleteAsync | Infrastructure/Repositories/Common/Repository.cs:51-57 | the row stays in the table, flagged deleted with UpdatedAt = now; unique indexes still hold |
| GenericRepository.Repository.SaveChangesAsync | Infrastructure/Data/ApplicationDbContext.cs:56-115 | a staged unit of work is committed whole iff every unique index holds on it, else nothing changes |
| CategoryRepository.GetByCode | Infrastructure/Repositories/Category/CategoryRepository.cs:20-24 | returns a non-deleted category whose Code equals the argument exactly, and None iff no such category exists |
| CategoryRepository.ExistsByCodeIff | Infrastructure/Repositories/Category/CategoryRepository.cs:20-30 | ExistsByCodeAsync(c) holds iff GetByCodeAsync(c) is non-null |
| CategoryRepository.CodeIsUnique | Infrastructure/Data/ApplicationDbContext.cs:56 | the unique index on Code makes Code a key of the whole table, deleted rows included |
| CategoryRepository.GetByCodeFindsTheRow | Infrastructure/Repositories/Category/CategoryRepository.cs:20-24 | under the unique index, GetByCodeAsync of an active category's code returns that category |
| CategoryRepository.DeletedCodeGone | Infrastructure/Repositories/Category/CategoryRepository.cs:26-30 | once the category holding a code is soft-deleted, ExistsByCodeAsync of that code is false |
| CategoryRepository.CodeMatchIsCaseSensitive | Infrastructure/Repositories/Category/CategoryRepository.cs:23 | matching is exact and case-sensitive: when every active category holds code c, any other code, even one differing only in case, is not found, and c is found iff some category is active |
| ProductRepository.GetByProductCode | Infrastructure/Repositories/Product/ProductRepository.cs:18-23 | returns a non-deleted product with exactly that ProductCode, and None iff there is none |
| ProductRepository.ExistsByProductCodeIff | Infrastructure/Repositories/Product/ProductRepository.cs:18-29 | ExistsByProductCodeAsync(c) holds iff GetByProductCodeAsync(c) is non-null |
| ProductRepository.CodeIsUnique | Infrastructure/Data/ApplicationDbContext.cs:66 | the unique index on ProductCode makes it a key of the whole table |
| ProductRepository.GetByProductCodeFindsTheRow | Infrastructure/Repositories/Product/ProductRepository.cs:18-23 | under the unique index, the lookup of an active product's code returns that product |
| ProductRepository.DeletedCodeGone | Infrastructure/Repositories/Product/ProductRepository.cs:25-29 | a soft-deleted product's code is no longer reported as existing |
| ProductRepository.CodeMatchIsCaseSensitive | Infrastructure/Repositories/Product/ProductRepository.cs:21 | matching is exact and case-sensitive: when every active product holds code c, any other code, even one differing only in case, is not found, and c is found iff some product is active |
| LanguageRepository.GetByCode | Infrastructure/Repositories/Language/LanguageRepository.cs:18-23 | returns a non-deleted language with that Code, active or not, and None iff there is none |
| LanguageRepository.ExistsByCodeIff | Infrastructure/Repositories/Language/LanguageRepository.cs:40-44 | ExistsByCodeAsync(c) holds iff GetByCodeAsync(c) is non-null |
| LanguageRepository.CodeIsUnique | Infrastructure/Data/ApplicationDbContext.cs:106 | the unique index on Code makes it a key of the languages table |
| LanguageRepository.GetByCodeFindsTheRow | Infrastructure/Repositories/Language/LanguageRepository.cs:18-23 | under the unique index, the lookup of a non-deleted language's code returns it, even when it is inactive |
| LanguageRepository.GetDefault | Infrastructure/Repositories/Language/LanguageRepository.cs:25-30 | returns only a language that is default, active and not deleted, and None iff no such language exists |
| LanguageRepository.GetActiveLanguages | Infrastructure/Repositories/Language/LanguageRepository.cs:32-38 | the result is sorted by ascending Code and is a permutation of the active, non-deleted languages |
| LanguageRepository.ActiveLanguagesMembers | Infrastructure/Repositories/Language/LanguageRepository.cs:32-38 | a language is listed iff it is stored, active and not deleted |
| TranslationRepository.GetByKeyAndLanguageId | Infrastructure/Repositories/Language/TranslationRepository.cs:18-23 | returns only a non-deleted translation with that Key and LanguageId, and None iff there is none |
| TranslationRepository.ExistsByKeyAndLanguageIdIff | Infrastructure/Repositories/Language/TranslationRepository.cs:43-47 | ExistsByKeyAndLanguageIdAsync holds iff GetByKeyAndLanguageIdAsync is non-null |
| TranslationRepository.GetByKeyAndLanguageCode | Infrastructure/Repositories/Language/TranslationRepository.cs:25-31 | returns a non-deleted translation with that key whose language exists, has the code and is not deleted; None iff there is none |
| TranslationRepository.ToDictionary | Infrastructure/Repositories/Language/TranslationRepository.cs:40 | ToDictionary succeeds iff the keys are pairwise distinct (else ArgumentException), and then maps each row's key to its value and holds no other key |
| TranslationRepository.TranslationsOf | Infrastructure/Repositories/Language/TranslationRepository.cs:35-38 | the loaded rows are exactly the non-deleted translations of the non-deleted language with that code |
| TranslationRepository.ActiveKeysDistinct | Infrastructure/Data/ApplicationDbContext.cs:106-115 | the unique indexes on (Key, LanguageId) and on Code make the keys of one language code's translations distinct |
| TranslationRepository.TranslationsMapMeaning | Infrastructure/Repositories/Language/TranslationRepository.cs:33-41 | GetAllTranslationsByLanguageCodeAsync never throws, and maps k to v iff a non-deleted translation (k, v) of the non-deleted language with that code exists |
| PermissionRepository.GetByName | Infrastructure/Repositories/Permission/PermissionRepository.cs:18-23 | returns only a non-deleted permission with exactly that Name, and None iff there is none |
| PermissionRepository.GetByResourceAndAction | Infrastructure/Repositories/Permission/PermissionRepository.cs:25-30 | returns only a non-deleted permission with exactly that Resource and Action, and None iff there is none |
| PermissionRepository.GetByResource | Infrastructure/Repositories/Permission/PermissionRepository.cs:32-37 | lists exactly the non-deleted permissions with that Resource |
| PermissionRepository.ExistsByNameIff | Infrastructure/Repositories/Permission/PermissionRepository.cs:39-43 | ExistsByNameAsync(n) holds iff GetByNameAsync(n) is non-null |
| PermissionRepository.KeysAreUnique | Infrastructure/Data/ApplicationDbContext.cs:84-85 | the unique indexes make Name and (Resource, Action) keys of the permissions table |
| PermissionRepository.LookupsFindTheRow | Infrastructure/Repositories/Permission/PermissionRepository.cs:18-30 | under the unique indexes, both lookups of an active permission's keys return that permission |
| PermissionRepository.GetPermissionsByRoleId | Infrastructure/Repositories/Permission/PermissionRepository.cs:45-51 | lists exactly the non-deleted permissions with at least one non-deleted link to the role |
| PermissionRepository.GetPermissionsByUserRoles | Infrastructure/Repositories/Permission/PermissionRepository.cs:53-64 | lists exactly the non-deleted permissions with a non-deleted link to one of the roles; empty for no roles |
| PermissionRepository.UserRolesNoDuplicates | Infrastructure/Repositories/Permission/PermissionRepository.cs:60-63 | each permission appears once in the result |
| PermissionRepository.UserRolesIsUnion | Infrastructure/Repositories/Permission/PermissionRepository.cs:53-64 | the result is the union of GetPermissionsByRoleIdAsync over the roles |
| PermissionRepository.UserRolesMonotone | Infrastructure/Repositories/Permission/PermissionRepository.cs:60-63 | adding role ids never removes a permission from the result |
| RolePermissionRepository.GetByRoleId | Infrastructure/Repositories/Permission/RolePermissionRepository.cs:18-24 | lists exactly the non-deleted links with that RoleId |
| RolePermissionRepository.GetByRoleIdAndPermissionId | Infrastructure/Repositories/Permission/RolePermissionRepository.cs:26-31 | returns a non-deleted link of the pair, and None iff there is none |
| RolePermissionRepository.GetByRoleIdAndPermissionIdIncludingDeleted | Infrastructure/Repositories/Permission/RolePermissionRepository.cs:36-41 | returns a link of the pair whether or not it is soft-deleted, and None iff the pair has no row at all |
| RolePermissionRepository.ActiveLookupIsIncludingDeleted | Infrastructure/Data/ApplicationDbContext.cs:92 | under the unique (RoleId, PermissionId) index, when the active lookup finds a link the including-deleted lookup finds the same one |
| RolePermissionRepository.DeleteByRoleId | Infrastructure/Repositories/Permission/RolePermissionRepository.cs:43-50 | soft-deletes exactly the role's active links: afterwards GetByRoleIdAsync of the role is empty and other roles' rows are unchanged |
| RolePermissionRepository.NoActiveLinkLeft | Infrastructure/Repositories/Permission/RolePermissionRepository.cs:43-50 | soft-deleting a role's active links leaves it none |
| RolePermissionRepository.RoleHasPermissionIff | Infrastructure/Repositories/Permission/RolePermissionRepository.cs:52-58 | RoleHasPermissionAsync(r, n) holds iff a non-deleted permission named n is among GetPermissionsByRoleIdAsync(r), i.e. a non-deleted link of r reaches it |
| Queries.SearchEvalMeaning | Application/Helpers/DynamicFilterHelper.cs:177-191 | when the OrElse chain does not throw, it holds iff some listed string property, lowercased, contains the term |
| Queries.SelectMembers | Application/Helpers/DynamicFilterHelper.cs:58 | a Where chain keeps exactly the source rows on which every condition holds |
| Queries.SelectFails | Application/Helpers/DynamicFilterHelper.cs:80-82 | running the query throws exactly when evaluating the conditions on some row throws (a null string lowered) |
| Queries.SelectIsSubsequence | Application/Helpers/DynamicFilterHelper.cs:115 | Where keeps source order: the result is a subsequence of the input |
| Queries.SelectAppend | Application/Helpers/DynamicFilterHelper.cs:115 | successive Where calls compose: running ps + qs is running qs on the result of ps |
| Queries.SelectStronger | Application/Helpers/DynamicFilterHelper.cs:115 | a chain holding more conditions keeps only rows the smaller chain keeps |
| DynamicFilter.VisitedAreDeclared | Application/Helpers/DynamicFilterHelper.cs:22-25 | of all the request's properties, exactly the non-null ones declared by the concrete subclass reach the loop, in declaration order |
| DynamicFilter.PagingAndSortingDoNotFilter | Application/Helpers/DynamicFilterHelper.cs:22-25 | page number, page size, SortBy and SortDirection never change the conditions built |
| DynamicFilter.FieldConditionPolicy | Application/Helpers/DynamicFilterHelper.cs:35-110 | an empty string or a property the entity lacks adds nothing; a non-empty (even white-space) string gives a lowercased substring test; a DateTime gives >= for "From", nothing without "From"/"To"; a Guid gives equality; a "...Code" navigation gives a nav.Code test instead |
| DynamicFilter.PropertyConditionsOk | Application/Helpers/DynamicFilterHelper.cs:27-117 | when no property's condition throws, the loop collects the conditions the properties contribute, in order |
| DynamicFilter.PropertyConditionsSkipNull | Application/Helpers/DynamicFilterHelper.cs:25-30 | null-valued properties contribute nothing, so skipping them changes no condition |
| DynamicFilter.DeclaredConditions | Application/Helpers/DynamicFilterHelper.cs:22-117 | the conditions of a request whose properties do not throw are those its declared properties contribute, in declaration order |
| DynamicFilter.PropertyConditionsErrorKind | Application/Helpers/DynamicFilterHelper.cs:84-110 | the only failure of condition building is an expression over mismatched types |
| DynamicFilter.ApplySearchTerm | Application/Helpers/DynamicFilterHelper.cs:161-199 | with no string property the query is unchanged; otherwise the loop's OrElse chain is equivalent, row by row, to one "some string property contains the lowercased term" condition |
| DynamicFilter.ApplyPropertyFilters | Application/Helpers/DynamicFilterHelper.cs:27-117 | the loop adds one Where per generated condition in order, or fails exactly when building one fails |
| DynamicFilter.ApplyBaseFilters | Application/Helpers/DynamicFilterHelper.cs:119-153 | the search term (when not blank) and the column filters add exactly the base conditions |
| DynamicFilter.ApplyColumnFilters | Application/Helpers/DynamicFilterHelper.cs:125-153 | IsDeleted adds equality, CreatedFrom adds CreatedAt >= and CreatedTo adds CreatedAt <=, each only when set |
| DynamicFilter.ApplyDynamicFilters | Application/Helpers/DynamicFilterHelper.cs:16-156 | the loop-built query is equivalent to the source restricted by the pure conjunction of all generated conditions, or fails iff building one fails |
| DynamicFilter.FilteredRows | Application/Helpers/DynamicFilterHelper.cs:58-115 | the result is a subsequence of the input holding exactly the rows on which every generated condition holds |
| DynamicFilter.MoreFieldsKeepConditions | Application/Helpers/DynamicFilterHelper.cs:27-117 | populating one more declared property keeps every condition the request already had |
| DynamicFilter.MoreFieldsNarrow | Application/Helpers/DynamicFilterHelper.cs:58-115 | populating one more property never enlarges the result |
| DynamicFilter.DeletedOnlyOnActiveRowsIsEmpty | Application/Helpers/DynamicFilterHelper.cs:125-133 | on rows already restricted to non-deleted ones, IsDeleted = true yields no rows |
| DynamicFilter.BaseConditionsMeaning | Application/Helpers/DynamicFilterHelper.cs:119-153 | the base conditions hold on a row iff the search hits (when a term is given), IsDeleted matches and CreatedAt is within the inclusive bounds |
| DynamicFilter.SearchConditionsMeaning | Application/Helpers/DynamicFilterHelper.cs:119-123 | with a non-blank term the search condition holds iff the search hits the row; with none there is no condition and every row passes |
| DynamicFilter.ColumnConditionsMeaning | Application/Helpers/DynamicFilterHelper.cs:125-153 | the IsDeleted, CreatedFrom and CreatedTo conditions hold iff the stored flag equals the requested one and the creation time lies within the given bounds |
| Paging.ClampPageNumber | Application/Services/CategoryService.cs:89 | the page number is at least 1: kept when it is, 1 otherwise |
| Paging.ClampPageSize | Application/Services/CategoryService.cs:90 | the page size lies in 1..100: kept when it does, 10 when below 1, 100 when above 100 |
| Paging.TotalPagesIsCeiling | Application/Services/CategoryService.cs:128 | TotalPages is the least page count covering the records: pages times size reach the total, one page fewer does not, and it is 0 iff there are no records |
| Paging.Page | Application/Services/CategoryService.cs:123-126 | Skip((page - 1) * size).Take(size) never yields more than size records |
| Paging.PageAt | Application/Services/CategoryService.cs:123-126 | the k-th record of a page is record (page - 1) * size + k of the listing |
| Paging.PagesCover | Application/Services/CategoryService.cs:123-128 | every record of the listing sits on one of pages 1..TotalPages, at the position its index gives |
| Paging.PageBeyondLastIsEmpty | Application/Services/CategoryService.cs:123-128 | a page number past TotalPages yields an empty page |
| Paging.PageWindow | Application/Services/CategoryService.cs:123-126 | a page is the contiguous window of the listing that starts at (page - 1) * size and is at most size long |
| Paging.RespondSpec | Application/Services/CategoryService.cs:69-84 | the response counts every matching record, echoes the clamped page and size, reports the ceiling page count and holds the requested window of the records |
| Paging.RespondPages | Application/DTOs/Common/PagedResponse.cs:8-11 | TotalPages pages of the clamped size cover TotalRecords with no empty page at the end, and HasNextPage implies records remain after the current page |
| Listing.ChooseSpec | Application/Services/CategoryService.cs:102-120 | SortBy lower-cased (default "createdat") picks the first arm with that name and the fallback key otherwise; the order is ascending iff SortDirection lower-cased is "asc" on a known arm, descending on the fallback |
| Listing.SortIsCaseInsensitive | Application/Services/CategoryService.cs:102-103 | the sort choice depends on SortBy and SortDirection only through their lower-case forms |
| Listing.ListedSpec | Application/Services/CategoryService.cs:99-137 | the response counts every matching record before sorting, echoes the clamped page and size, and holds the requested window of the records sorted by the chosen key |
| Listing.ListedEmpty | Application/Services/CategoryService.cs:99-137 | a listing with no matching rows counts zero records and returns no data for any requested page |
| Listing.ListedCovers | Application/Services/CategoryService.cs:99-137 | every matching record appears on some page 1..TotalPages of the sorted listing |
| Sorting.LexLeTotal | Application/Services/CategoryService.cs:108-109 | the ordinal string order compares any two codes |
| Sorting.LexLeTrans | Application/Services/CategoryService.cs:108-109 | the ordinal string order is transitive |
| Sorting.LexLeAntisymmetric | Application/Services/CategoryService.cs:108-109 | two strings ordered both ways are equal |
| Sorting.InOrderTotal | Application/Services/CategoryService.cs:105-119 | any two sort keys can be placed in ascending or in descending order |
| Sorting.InOrderTrans | Application/Services/CategoryService.cs:105-119 | placing sort keys in order is transitive |
| Sorting.SortBySorted | Application/Services/CategoryService.cs:105-120 | OrderBy and OrderByDescending yield a permutation of their input in the requested order |
| Sorting.SortByMembers | Application/Services/CategoryService.cs:105-120 | sorting keeps exactly the records it is given |
| Sorting.SortBySortedInput | Application/Services/CategoryService.cs:105-120 | an input already in the requested order is returned as it is |
| Sorting.SortByStable | Application/Services/CategoryService.cs:105-120 | OrderBy is stable: for every key, the elements holding that key come out in the order they went in |
| CategoryService.GetFiltered | Application/Services/CategoryService.cs:87-138 | the method that applies the dynamic filters, counts, sorts and pages returns the FilteredListing response, or the exception building or running the filter throws |
| CategoryService.CodeFieldCondition | Application/Helpers/DynamicFilterHelper.cs:35-82 | a non-empty Code field adds a case-insensitive Contains on Code (the column itself, not a navigation), an empty or absent one nothing |
| CategoryService.DescriptionFieldCondition | Application/Helpers/DynamicFilterHelper.cs:65-82 | a non-empty Description field adds a case-insensitive Contains on Description, an empty or absent one nothing |
| CategoryService.PropertyConditionsOfRequest | Application/DTOs/Category/Requests/CategoryFilterRequest.cs:8-19 | the category request's own properties contribute exactly the Code and then the Description condition, when filled |
| CategoryService.ConditionsOfRequest | Application/Helpers/DynamicFilterHelper.cs:16-156 | building the filter for a category request never throws and yields the field conditions followed by the base conditions |
| CategoryService.SearchEvalOnCategory | Application/Helpers/DynamicFilterHelper.cs:161-199 | the search term hits a category iff its lower-cased Code or Description contains the lower-cased term |
| CategoryService.ConditionsMeaning | Application/Services/CategoryService.cs:96 | on every category the generated filter evaluates without throwing and holds iff every filled field, the search term, IsDeleted and the creation range match |
| CategoryService.FilteredRowsOfRequest | Application/Services/CategoryService.cs:92-99 | the filtered rows are exactly the active categories that match the request |
| CategoryService.GetFilteredSpec | Application/Services/CategoryService.cs:87-138 | GetFilteredAsync never throws; it counts every matching active category, echoes the clamped page and size, and returns the requested window of them sorted by the chosen key |
| CategoryService.GetFilteredOrder | Application/Services/CategoryService.cs:101-120 | the listing is ordered by the chosen key and is a permutation of the matching categories |
| CategoryService.DeletedFilterGivesNothing | Application/Services/CategoryService.cs:92-99 | asking for deleted categories yields no records, since only active ones are read |
| CategoryService.PagedRowsMembers | Application/Services/CategoryService.cs:58-67 | GetPagedAsync keeps exactly the active categories whose lower-cased Code or Description contains the lower-cased term, or all of them with a blank term |
| CategoryService.GetPagedSpec | Application/Services/CategoryService.cs:53-85 | GetPagedAsync counts every kept category, echoes the clamped page and size, reports the ceiling page count and returns the requested window in table order |
| CategoryService.ClashesIffCodeHeld | Infrastructure/Data/ApplicationDbContext.cs:56 | the unique index on Code refuses a category iff another stored row, deleted or not, has its code |
| CategoryService.ConflictOnlyFromDeletedHolder | Application/Services/CategoryService.cs:35-42 | once the service check passes, the commit is refused exactly when a soft-deleted category still holds the code |
| CategoryService.RecreateAfterDeleteConflicts | Application/Services/CategoryService.cs:35-42 | re-creating a deleted category's code passes the existence check and is then refused by the unique index |
| CategoryService.Create | Application/Services/CategoryService.cs:32-45 | a code an active category holds gives InvalidOperation("CategoryCodeExists") and changes nothing; otherwise the category is inserted fresh with CreatedAt = now, or refused with a conflict, exactly when a soft-deleted row holds the code |
| CategoryService.Update | Application/Services/CategoryService.cs:140-162 | an unknown id gives KeyNotFound("CategoryNotFound"); a changed code that an active category holds gives CategoryCodeExists; otherwise Code and Description are replaced and UpdatedAt stamped, unless the unique index refuses it; failures change nothing |
| CategoryService.SameCodeNeverClashes | Application/Services/CategoryService.cs:149-155 | an update keeping its own code never clashes on the unique index |
| CategoryService.Delete | Application/Services/CategoryService.cs:164-174 | an unknown id gives KeyNotFound("CategoryNotFound") and changes nothing; otherwise the category is soft-deleted with UpdatedAt = now |
| ProductService.GetFiltered | Application/Services/ProductService.cs:113-196 | the method that applies the dynamic filters, then HasImage and CategoryCode, then counts, sorts and pages returns the FilteredListing response, or the exception the query throws |
| ProductService.ProductCodeNavigation | Application/Helpers/DynamicFilterHelper.cs:35-41 | "ProductCode" with "Code" removed names no navigation of Product, so it is not a navigation filter |
| ProductService.OnlyCategoryIsNavigation | Application/Helpers/DynamicFilterHelper.cs:38-41 | no Product property whose name starts with 'P' is a navigation with a Code |
| ProductService.ProductCodeFieldCondition | Application/Helpers/DynamicFilterHelper.cs:35-82 | a non-empty ProductCode field adds a case-insensitive Contains on ProductCode, an empty or absent one nothing |
| ProductService.ProductNameFieldCondition | Application/Helpers/DynamicFilterHelper.cs:65-82 | a non-empty ProductName field adds a case-insensitive Contains on ProductName, an empty or absent one nothing |
| ProductService.HasImageFieldCondition | Application/Helpers/DynamicFilterHelper.cs:64-66 | HasImage is no property of Product, so the dynamic filter adds nothing for it |
| ProductService.CategoryIdFieldCondition | Application/Helpers/DynamicFilterHelper.cs:83-87 | a CategoryId filter compares a Guid with the Guid? column, and building that equality throws |
| ProductService.CategoryCodeNavigation | Application/Helpers/DynamicFilterHelper.cs:35-38 | "CategoryCode" with "Code" removed names the Category navigation |
| ProductService.CategoryCodeFieldCondition | Application/Helpers/DynamicFilterHelper.cs:35-59 | a non-empty CategoryCode field adds a case-insensitive Contains on Category.Code, an empty or absent one nothing |
| ProductService.DeclaredFieldConditions | Application/DTOs/Product/Requests/ProductFilterRequest.cs:8-34 | each of the request's five own properties contributes its condition, or nothing for HasImage and an absent CategoryId |
| ProductService.PresentOfDeclared | Application/DTOs/Product/Requests/ProductFilterRequest.cs:8-34 | the contributed conditions are those of ProductCode, ProductName and CategoryCode, in that order |
| ProductService.PropertyConditionsOfRequest | Application/Helpers/DynamicFilterHelper.cs:22-117 | without CategoryId, building the dynamic filter never throws and yields the three text-field conditions |
| ProductService.CategoryIdFilterThrows | Application/Services/ProductService.cs:123 | any CategoryId filter makes GetFilteredAsync throw while it builds the query |
| ProductService.SearchEvalOnProduct | Application/Helpers/DynamicFilterHelper.cs:161-199 | the search scans ProductCode, ProductName, then Image, and throws exactly when the first two miss the term and Image is null |
| ProductService.FieldConditionsMeaning | Application/Helpers/DynamicFilterHelper.cs:35-82 | when the Category navigation is loaded, the text-field conditions hold iff ProductCode, ProductName and Category.Code contain the lower-cased values given |
| ProductService.CategoryConditionMeaning | Application/Helpers/DynamicFilterHelper.cs:35-82 | a non-empty CategoryCode becomes a condition on the loaded Category navigation that holds iff its Code contains the requested text, ignoring case; an empty one adds no condition |
| ProductService.ManualConditionsMeaning | Application/Services/ProductService.cs:125-151 | HasImage keeps the products whose Image is or is not empty; a non-blank CategoryCode keeps the products of the category with exactly that code, or none when there is no such category |
| ProductService.ProductSchemaFacts | Domain/Product/Entities/Product.cs:8-17 | the property table reads a product's IsDeleted and CreatedAt as stored |
| ProductService.ConditionsMeaning | Application/Services/ProductService.cs:123-151 | on a product where nothing throws, the query's conditions hold iff the product matches every filled field, the search, the base filters, HasImage and the category lookup |
| ProductService.FilteredRowsOfRequest | Application/Services/ProductService.cs:119-157 | without CategoryId and with no product that makes a condition throw, the query keeps exactly the active products matching the request |
| ProductService.GetFilteredSpec | Application/Services/ProductService.cs:113-196 | when it does not throw, GetFilteredAsync counts every matching active product, echoes the clamped page and size, and returns the requested window of them sorted by the chosen key |
| ProductService.GetFilteredOrder | Application/Services/ProductService.cs:159-178 | the listing is ordered by the chosen key and is a permutation of the matching products |
| ProductService.FirstConditionThrows | Application/Helpers/DynamicFilterHelper.cs:58-115 | a row on which the first Where condition throws makes the whole query throw |
| ProductService.NullImageSearchThrows | Application/Helpers/DynamicFilterHelper.cs:177-191 | with a search term, one active product with a null Image whose ProductCode and ProductName miss the term makes GetFilteredAsync throw NullReferenceException |
| ProductService.UnloadedCategoryThrows | Application/Services/ProductService.cs:153-157 | a CategoryCode filter throws NullReferenceException as soon as one active product has no loaded Category |
| ProductService.PagedRowsMembers | Application/Services/ProductService.cs:80-90 | GetPagedAsync keeps exactly the active products whose lower-cased ProductCode or ProductName contains the lower-cased term, or all of them with a blank term |
| ProductService.GetPagedSpec | Application/Services/ProductService.cs:74-111 | GetPagedAsync counts every kept product, echoes the clamped page and size, reports the ceiling page count and returns the requested window in table order |
| ProductService.PagedHitIsSearchHit | Application/Services/ProductService.cs:84-90 | a GetPagedAsync search hit is a filtered-listing search hit, and the two agree on products without an Image |
| ProductService.ClashesIffCodeHeld | Infrastructure/Data/ApplicationDbContext.cs:66 | the unique index on ProductCode refuses a product iff another stored row, deleted or not, has its code |
| ProductService.Create | Application/Services/ProductService.cs:37-66 | an existing active code gives ProductCodeExists; a CategoryId naming no category gives CategoryNotFound; failures change nothing; otherwise a fresh product with CreatedAt = now and no category is inserted, or refused with a conflict exactly when a soft-deleted row holds the code |
| ProductService.Update | Application/Services/ProductService.cs:198-236 | an unknown id gives ProductNotFound, a changed code held by an active product ProductCodeExists, a changed CategoryId naming no category CategoryNotFound; otherwise code, name and image are replaced, UpdatedAt stamped and the old CategoryId kept, unless the unique index refuses it |
| ProductService.SameCodeNeverClashes | Application/Services/ProductService.cs:206-213 | an update keeping its own code never clashes on the unique index |
| ProductService.Delete | Application/Services/ProductService.cs:238-248 | an unknown id gives ProductNotFound and changes nothing; otherwise the product is soft-deleted with UpdatedAt = now |
| PermissionService.WhereIf | Application/Services/PermissionService.cs:121-166 | one conditional Where stage: the next pipeline stage is the current one filtered by the condition when the filter is given, and unchanged otherwise |
| PermissionService.GetFiltered | Application/Services/PermissionService.cs:113-211 | the listing built stage by stage equals the FilteredListing response: the active permissions passing every filter, counted, sorted and paged |
| PermissionService.ApplyFieldFilters | Application/Services/PermissionService.cs:121-137 | the Name, Resource and Action stages narrow the active permissions to those whose fields contain the given values, ignoring case |
| PermissionService.ApplyCommonFilters | Application/Services/PermissionService.cs:139-166 | the search, IsDeleted, CreatedFrom and CreatedTo stages narrow the rows in that order |
| PermissionService.FilteredRowsMembers | Application/Services/PermissionService.cs:118-166 | GetFilteredAsync keeps exactly the active permissions whose Name, Resource and Action contain the given values, that the search term hits, whose IsDeleted matches and whose CreatedAt lies within the bounds |
| PermissionService.GetFilteredSpec | Application/Services/PermissionService.cs:168-210 | the response counts every filtered permission, echoes the clamped page and size, and returns the requested window of them sorted by the chosen key |
| PermissionService.GetFilteredOrder | Application/Services/PermissionService.cs:171-193 | the listing is ordered by the chosen key and is a permutation of the filtered permissions |
| PermissionService.DeletedFilterGivesNothing | Application/Services/PermissionService.cs:150-154 | asking for deleted permissions finds none, since only active ones are read |
| PermissionService.GetPagedSpec | Application/Services/PermissionService.cs:76-111 | GetPagedAsync counts every permission the search keeps, echoes the clamped page and size, and returns the requested window in table order |
| PermissionService.PagedRowsAreFilteredRows | Application/Services/PermissionService.cs:84-93 | GetPagedAsync pages exactly the rows GetFilteredAsync keeps for a request holding only the search term |
| PermissionService.ClashesIffKeyHeld | Infrastructure/Data/ApplicationDbContext.cs:84-85 | the unique indexes refuse a permission iff another stored row, deleted or not, has its Name or its Resource and Action |
| PermissionService.Create | Application/Services/PermissionService.cs:42-62 | a Name held by an active permission gives PermissionNameExists, a Resource and Action held by one PermissionResourceActionExists, and failures change nothing; otherwise the permission is inserted fresh, or refused with a conflict exactly when a soft-deleted row holds either key |
| PermissionService.Update | Application/Services/PermissionService.cs:213-235 | an unknown id gives PermissionNotFound, a changed Name held by an active permission PermissionNameExists; otherwise all four columns are replaced and UpdatedAt stamped, and the commit fails with a conflict exactly when a unique index clashes |
| PermissionService.UpdateToHeldPairConflicts | Application/Services/PermissionService.cs:221-232 | an update to the Resource and Action of another permission passes the service checks and is refused by the unique index |
| PermissionService.SameKeysNeverClash | Application/Services/PermissionService.cs:221-232 | an update keeping the permission's own Name, Resource and Action never clashes |
| PermissionService.Delete | Application/Services/PermissionService.cs:237-247 | an unknown id gives PermissionNotFound and changes nothing; otherwise the permission is soft-deleted with UpdatedAt = now |
| PermissionService.FreshIds | Application/Services/PermissionService.cs:266-281 | the add loop gives one new key per requested id |
| PermissionService.FreshLinksShape | Application/Services/PermissionService.cs:266-281 | the add loop keeps the table well formed and appends the new keys to the insertion order |
| PermissionService.FreshLinksFacts | Application/Services/PermissionService.cs:266-281 | the add loop keeps every staged row and stores under the i-th new key an active link of the role to the i-th requested id |
| PermissionService.FreshIdsAreNew | Application/Services/PermissionService.cs:274-280 | the new keys are pairwise distinct, none was in use, and they are the only keys added |
| PermissionService.SoftDeletedKeepsData | Application/Services/PermissionService.cs:258-263 | the removal loop keeps every row's key and data and leaves the role no active link |
| PermissionService.SoftDeletedRoleInactive | Application/Services/PermissionService.cs:258-263 | after the removal loop every link of the role is flagged deleted |
| PermissionService.AssignDuplicateConflicts | Application/Services/PermissionService.cs:266-283 | an id requested twice adds two links of the same pair, so the commit is refused |
| PermissionService.AssignRelinkConflicts | Application/Services/PermissionService.cs:258-283 | requesting a permission the role was ever linked to, even through a soft-deleted link, makes the commit fail |
| PermissionService.AssignKeepsOldClash | Application/Services/PermissionService.cs:258-283 | a clash already in the table survives the assignment |
| PermissionService.AssignUniqueWhenFresh | Application/Services/PermissionService.cs:258-283 | without duplicates and without any earlier link of a requested pair, the commit succeeds |
| PermissionService.FreshPairUnique | Infrastructure/Data/ApplicationDbContext.cs:92 | any two distinct links after such an assignment have different (RoleId, PermissionId) pairs |
| PermissionService.AssignAsWrittenUnique | Application/Services/PermissionService.cs:258-283 | the commit succeeds exactly when the table was consistent, no id is requested twice and the role never had a link, active or deleted, to a requested permission |
| PermissionService.AssignAsWrittenOutcome | Application/Services/PermissionService.cs:258-283 | the staged table gives the role exactly the requested permissions and leaves other roles' links untouched |
| PermissionService.AssignAsWrittenActiveSound | Application/Services/PermissionService.cs:258-283 | every active permission of the role afterwards was requested |
| PermissionService.ActiveLinkIsFresh | Application/Services/PermissionService.cs:258-283 | every active link of the role after the assignment is one of the links it added, so it names a requested permission |
| PermissionService.AssignAsWrittenActiveComplete | Application/Services/PermissionService.cs:266-281 | every requested permission is an active permission of the role afterwards |
| PermissionService.AssignAsWrittenKeepsOthers | Application/Services/PermissionService.cs:258-263 | links of other roles are untouched |
| PermissionService.SecondAssignConflicts | Application/Services/PermissionService.cs:258-283 | a second call with the same non-empty list is refused, even when the first committed |
| PermissionService.AddLinks | Application/Services/PermissionService.cs:266-281 | the add loop throws PermissionNotFound iff some requested id names no permission (soft-deleted ones are found), and otherwise stages one link per id |
| PermissionService.AssignPermissionsToRole | Application/Services/PermissionService.cs:249-284 | an unknown role gives RoleNotFound and an unknown permission PermissionNotFound, both before anything is saved; otherwise the staged removals and additions commit together iff the unique index holds on them, else a conflict that changes nothing |
| PermissionService.TargetsOfDistinct | Application/Services/PermissionService.cs:266 | dropping repeated ids names the same set of permissions |
| PermissionService.AssignReconciledSucceeds | Infrastructure/Data/DatabaseSeeder.cs:263-311 | reconciling over the distinct requested ids always keeps the unique index, leaves the role exactly the requested permissions, and repeating it changes nothing |
| PermissionService.AssignReconciled | Application/Services/PermissionService.cs:249-284 | with the same checks and error cases, a reconciling assignment always commits and leaves the role exactly the requested permissions |
| PermissionService.GetPermissionsByRole | Application/Services/PermissionService.cs:286-296 | an unknown role name gives RoleNotFound; otherwise the result holds exactly the active permissions with an active link to that role |
| PermissionService.ResolvedRoleIds | Application/Services/PermissionService.cs:306-316 | an id is kept iff one of the user's role names resolves to a role with that id |
| PermissionService.UserPermissionNamesDistinct | Application/Services/PermissionService.cs:318-319 | each permission name is listed once |
| PermissionService.NamesOfRolesSound | Application/Services/PermissionService.cs:318-319 | every listed name is the name of an active permission linked to one of the roles |
| PermissionService.NamesOfRolesComplete | Application/Services/PermissionService.cs:318-319 | the name of every active permission linked to one of the roles is listed |
| PermissionService.UserPermissionNamesMembers | Application/Services/PermissionService.cs:298-320 | a name is listed iff an active permission of that name has an active link to a role the user belongs to |
| PermissionService.GetUserPermissions | Application/Services/PermissionService.cs:298-320 | an unknown user gives UserNotFound; otherwise the distinct names of the permissions of the user's resolved roles |
| PermissionService.ResolveRoleIds | Application/Services/PermissionService.cs:306-316 | the loop keeps, in order, the ids of the role names that resolve |
| DatabaseSeeder.AddOrRestoreReconciles | Infrastructure/Data/DatabaseSeeder.cs:283-308 | the add-or-restore loop keeps its invariant: every committed link is in its expected state, and only fresh links of pairs that had none are added |
| DatabaseSeeder.ReconciledActive | Infrastructure/Data/DatabaseSeeder.cs:263-311 | once every target is processed, the role's active links grant exactly the targets |
| DatabaseSeeder.AssignFacts | Infrastructure/Data/DatabaseSeeder.cs:263-311 | the reconciliation keeps the unique index, gives the role exactly the target permissions, keeps every row's data, leaves other roles' rows as they were, and adds links only for pairs that had none |
| DatabaseSeeder.AddOrRestoreExisting | Infrastructure/Data/DatabaseSeeder.cs:285 | permissions the role already holds actively are skipped |
| DatabaseSeeder.AssignWhenInPlace | Infrastructure/Data/DatabaseSeeder.cs:263-311 | a role already holding exactly the targets is left as it is |
| DatabaseSeeder.AssignIdempotent | Infrastructure/Data/DatabaseSeeder.cs:263-311 | reconciling twice with the same targets leaves what reconciling once left |
| DatabaseSeeder.AssignPermissionsToRole | Infrastructure/Data/DatabaseSeeder.cs:263-311 | the staged table is AssignSpec, and on a consistent table with distinct targets it keeps the unique index and grants the role exactly the targets |
| DatabaseSeeder.SoftDeleteRemoved | Infrastructure/Data/DatabaseSeeder.cs:272-280 | the removal loop soft-deletes exactly the role's active links to permissions outside the targets |
| DatabaseSeeder.AddOrRestoreAll | Infrastructure/Data/DatabaseSeeder.cs:282-308 | the loop computes AddOrRestore: restore a soft-deleted link of the pair, add one when there is none, skip the pairs already active |
| DatabaseSeeder.ExistingIdsAreActive | Infrastructure/Data/DatabaseSeeder.cs:266-267 | the existing permission ids are exactly those the role's active links grant |
| DatabaseSeeder.RemovedIdsOfExisting | Infrastructure/Data/DatabaseSeeder.cs:273-275 | the links to remove are exactly the role's active links outside the targets |
| DatabaseSeeder.ActiveNamesIsLookup | Infrastructure/Data/DatabaseSeeder.cs:208-209 | GetByNameAsync finds a name iff an active permission has it |
| DatabaseSeeder.UpsertPermissionsKeeps | Infrastructure/Data/DatabaseSeeder.cs:206-222 | the permission seed loop keeps every existing row as it is |
| DatabaseSeeder.UpsertPermissionsAdds | Infrastructure/Data/DatabaseSeeder.cs:206-222 | a row is added only for a seed whose name had no active row, and holds exactly that seed |
| DatabaseSeeder.UpsertPermissionsCovers | Infrastructure/Data/DatabaseSeeder.cs:206-222 | every seed name ends with an active permission |
| DatabaseSeeder.UpsertPermissionsAddsAbsent | Infrastructure/Data/DatabaseSeeder.cs:206-222 | a seed whose name had no active row gets a new row holding it |
| DatabaseSeeder.SeedOverDeletedRowConflicts | Infrastructure/Data/DatabaseSeeder.cs:206-222 | a seed whose name only a soft-deleted permission holds is added again, and the unique index on Name refuses the commit |
| DatabaseSeeder.SeedPermissions | Infrastructure/Data/DatabaseSeeder.cs:173-223 | the eighteen seeds are staged and committed whole iff the unique indexes hold on the result, else nothing changes |
| DatabaseSeeder.UpsertLanguagesKeeps | Infrastructure/Data/DatabaseSeeder.cs:82-104 | no language is removed or changes code or deletion flag, and a deleted or unseeded one is untouched |
| DatabaseSeeder.UpsertLanguagesCovers | Infrastructure/Data/DatabaseSeeder.cs:82-104 | with distinct seed codes, every seed ends as an active row carrying exactly the seeded name, IsActive and IsDefault |
| DatabaseSeeder.SeededLanguages | Infrastructure/Data/DatabaseSeeder.cs:76-106 | afterwards Vietnamese is an active default language and English an active non-default one |
| DatabaseSeeder.SeedLanguages | Infrastructure/Data/DatabaseSeeder.cs:74-107 | the two seeds are staged and committed whole iff the unique index on Code holds on the result, else nothing changes |
| DatabaseSeeder.IdsNoDuplicates | Infrastructure/Data/DatabaseSeeder.cs:240-241 | distinct rows of one table have distinct ids |
| DatabaseSeeder.ActiveIdsOf | Infrastructure/Data/DatabaseSeeder.cs:240-258 | mapping a list of the active rows that satisfy a test to their ids gives distinct ids, exactly the ids of those rows |
| DatabaseSeeder.ActiveIdsComplete | Infrastructure/Data/DatabaseSeeder.cs:240-258 | every active row passing the test has its id in the mapped list |
| DatabaseSeeder.ActiveIdsOnly | Infrastructure/Data/DatabaseSeeder.cs:240-258 | every id in the mapped list belongs to an active row passing the test |
| DatabaseSeeder.AdminIdsFacts | Infrastructure/Data/DatabaseSeeder.cs:240-259 | Admin receives every active permission, Admin1 every active one whose Resource is not "Product" ignoring case, each without repeats |
| DatabaseSeeder.AssignKeepsOtherRoles | Infrastructure/Data/DatabaseSeeder.cs:263-311 | reconciling one role leaves every other role's active permissions as they were |
| DatabaseSeeder.SeedRolesFacts | Infrastructure/Data/DatabaseSeeder.cs:225-261 | afterwards Admin holds exactly every active permission, Admin1 exactly the non-Product ones, and the unique index holds |
| DatabaseSeeder.SeedRoles | Infrastructure/Data/DatabaseSeeder.cs:225-261 | with two distinct roles both reconciliations commit and leave the SeedRolesSpec table |
| Identity.FindById | Infrastructure/Repositories/User/UserRepository.cs:47-50 | returns a stored user with exactly that id, and None iff no user has it |
| Identity.FindByName | Infrastructure/Repositories/User/UserRepository.cs:26-29 | returns a stored user whose user name equals the argument ignoring case, and None iff there is none |
| Identity.FindByEmail | Infrastructure/Repositories/User/UserRepository.cs:21-24 | returns a stored user whose email equals the argument ignoring case, and None iff there is none |
| Identity.FindByUserNameOrEmailSpec | Infrastructure/Repositories/User/UserRepository.cs:34-45 | a user is found iff some user has the value as user name or as email, and an email match is used only when no user name matches |
| Identity.FindRoleByName | Application/Services/PermissionService.cs:252-256 | returns a stored role whose name equals the argument ignoring case, and None iff there is none |
| Identity.RolesOf | Infrastructure/Repositories/User/UserRepository.cs:68-71 | a name is listed iff the user is a member of a role with that name |
| Identity.ReplacedUser | Infrastructure/Repositories/User/UserRepository.cs:98-108 | the user with the given id is replaced and every other user kept, in place |
| Identity.IdentityStore.CreateAsync | Infrastructure/Repositories/User/UserRepository.cs:52-61 | the user is stored with the password iff the id is new, the user name is non-empty, made of allowed characters and free, the email is well formed and free, and the password has six characters with a digit, a lower-case and an upper-case letter; otherwise nothing changes |
| Identity.IdentityStore.CreateRoleAsync | Infrastructure/Repositories/User/UserRepository.cs:88-96 | a role is added iff its name is not null, empty or whitespace only (RoleValidator's test) and no role has it, ignoring case; otherwise nothing changes |
| Identity.IdentityStore.AddToRoleAsync | Infrastructure/Repositories/User/UserRepository.cs:73-81 | the membership is added iff the role exists and the user is not already a member; otherwise nothing changes |
| Identity.IdentityStore.UpdateLanguageAsync | Infrastructure/Repositories/User/UserRepository.cs:98-108 | the user's Language and UpdatedAt are replaced and nothing else changes |
| Identity.AddedRoleIsListed | Infrastructure/Repositories/User/UserRepository.cs:68-81 | after AddToRoleAsync the role's name is among the user's roles |
| Identity.ReplacedUserKeepsIds | Infrastructure/Repositories/User/UserRepository.cs:98-108 | updating a user's language keeps the set of user ids |
| Claims.ClaimsOf | Attributes/RequirePermissionAttribute.cs:30 | a claim is among a principal's claims iff one of its identities holds it |
| Claims.ValuesOf | Attributes/RequirePermissionAttribute.cs:30 | a value is listed iff some claim of the type, compared ignoring case, has it |
| Claims.FindAll | Attributes/RequirePermissionAttribute.cs:30 | FindAll(type).Select(c => c.Value) lists exactly the values of the principal's claims of that type |
| Claims.FindFirst | Infrastructure/Middleware/LocalizationMiddleware.cs:61 | FindFirst finds a value iff the principal has a claim of the type, and that value is one FindAll lists |
| Claims.ValuesOfAppend | Attributes/RequirePermissionAttribute.cs:30 | the values of concatenated claim lists are the concatenated values |
| Claims.ClaimsFor | Infrastructure/Services/JwtService.cs:47-57 | one claim of the type per value, in order |
| Claims.ValuesOfNone | Attributes/RequirePermissionAttribute.cs:30 | claims of other types contribute no value |
| Claims.AllClaimsWithClaims | Attributes/RequirePermissionAttribute.cs:30 | adding claims to the first identity adds exactly those claims to the principal |
| Claims.FindAllWithClaims | Attributes/RequirePermissionAttribute.cs:30 | after adding claims FindAll finds the old values and those of the added claims |
| Claims.SingleIdentityClaims | Infrastructure/Services/JwtService.cs:111 | a principal with one identity has exactly that identity's claims |
| RequirePermission.Decide | Attributes/RequirePermissionAttribute.cs:19-43 | an unauthenticated principal gets 401; an authenticated one passes iff it has a Permission claim whose value is exactly the name, and gets 403 otherwise |
| RequirePermission.RequirePermissionAttribute.OnAuthorization | Attributes/RequirePermissionAttribute.cs:19-43 | the context result is set to the refusal when the filter refuses and left as it was when it allows |
| RequirePermission.MoreClaimsStillAllow | Attributes/RequirePermissionAttribute.cs:30-37 | adding claims never turns an allowed request into a refused one |
| RequirePermission.OtherClaimsIrrelevant | Attributes/RequirePermissionAttribute.cs:30-37 | claims of other types never change the verdict |
| RequirePermission.RoleClaimsNeverGrant | Attributes/RequirePermissionAttribute.cs:30-37 | a Role claim never grants a permission, whatever its value |
| JwtService.TokenClaims | Infrastructure/Services/JwtService.cs:39-57 | the token claims are NameIdentifier, Email (or empty), Name (or empty) and jti, then one Role claim per role and one Permission claim per permission, in order |
| JwtService.GenerateClaims | Infrastructure/Services/JwtService.cs:38-57 | the claim list the two loops build is TokenClaims |
| JwtService.ClaimsForAppend | Infrastructure/Services/JwtService.cs:48-57 | adding one claim per value at the end extends the claim list by that claim |
| JwtService.GenerateToken | Infrastructure/Services/JwtService.cs:36-75 | the token carries TokenClaims, HS256 with the configured key, the configured issuer and audience, and expires the configured minutes after now |
| JwtService.GetPrincipalFromExpiredToken | Infrastructure/Services/JwtService.cs:96-121 | a malformed token or a wrong signing key is rejected, a token whose algorithm is not HS256 ignoring case gives "Invalid token", and otherwise the principal is authenticated and its claims are the claims the token was built with (the iss, aud and exp claims the handler adds are left out) |
| JwtService.LifetimeIssuerAudienceIgnored | Infrastructure/Services/JwtService.cs:99-107 | the refresh validation does not depend on the expiry, the issuer or the audience |
| JwtService.IssuedTokenValidates | Infrastructure/Services/JwtService.cs:36-121 | a token this service issued passes the refresh validation, however long ago it expired |
| JwtService.ValuesOfClaimsFor | Infrastructure/Services/JwtService.cs:54-57 | the values of one-claim-per-value are the values, in order |
| JwtService.NoPermissionBeforePermissions | Infrastructure/Services/JwtService.cs:39-51 | no fixed claim and no Role claim has the Permission type |
| JwtService.TokenPermissions | Infrastructure/Services/JwtService.cs:53-57 | the Permission claims of an issued token are the permission names, in order and with repeats |
| JwtService.IssuedTokenAllows | Infrastructure/Services/JwtService.cs:36-75 | a request carrying a token issued with permission names P passes RequirePermission(p) iff p is in P |
| AuthService.RoleNameOf | Application/Services/AuthService.cs:47 | a null or empty Role means "User", any other is kept, so the role name is never empty |
| AuthService.IssueTokens | Application/Services/AuthService.cs:91-103 | the roles, permission names, token and refresh token of a found user make the IssuedResponse |
| AuthService.IssuedResponseAllows | Application/Services/AuthService.cs:91-103 | the response lists the user's roles, and its token passes RequirePermission(p) iff an active permission named p is linked to one of the user's roles |
| AuthService.ResponseExpirationFixed | Application/Services/AuthService.cs:100 | the response's Expiration is always an hour after issue, and matches the token's expiry only when the configured lifetime is 60 minutes |
| AuthService.Register | Application/Services/AuthService.cs:32-69 | an email in use gives UserAlreadyExists and a user the validators refuse gives CreateUserFailed, both changing nothing; the user is created active, with language vi and creation time `now`; a missing role whose name is whitespace only gives CreateRoleFailed with the user left created; otherwise the user and, when missing, its role (User by default) are created, and the call succeeds iff the membership is new, else AddToRoleFailed with the user and role left in place |
| AuthService.JoinRole | Application/Services/AuthService.cs:46-68 | once the user exists, a missing role whose name is whitespace only gives CreateRoleFailed and changes nothing; otherwise its role (User when none is named) is created only when missing and then found by name; the call succeeds iff the membership is new, leaving exactly that membership added and answering with tokens whose roles list that role; otherwise AddToRoleFailed with the store holding the user and role only |
| AuthService.Login | Application/Services/AuthService.cs:71-104 | an unknown user and a wrong password give LoginFailed, an inactive account UserAccountInactive before the password is checked, and success happens iff the user is found, active and the password verifies, answering the IssuedResponse |
| AuthService.RefreshOutcome | Application/Services/AuthService.cs:106-139 | a token the validation refuses gives its error, and a success always answers for an active stored user with a non-empty id |
| AuthService.Refresh | Application/Services/AuthService.cs:106-139 | RefreshTokenAsync answers RefreshOutcome |
| AuthService.IssuedTokenUserId | Application/Services/AuthService.cs:114 | the NameIdentifier claim of an issued token is the user's id |
| AuthService.IssuedTokenRefreshes | Application/Services/AuthService.cs:106-139 | a token issued to an active user refreshes, at any later time, into a fresh response for the same user |
| AuthService.GetCurrentUser | Application/Services/AuthService.cs:141-154 | an unknown id gives UserNotFound; otherwise the user's id, email (empty when null), user name, first and last names, active flag and creation time, with exactly the names of its roles |
| AuthService.UpdateLanguage | Application/Services/AuthService.cs:156-168 | an unknown id gives UserNotFound and changes nothing; otherwise the language is stored as given, with no check, and echoed |
| AuthService.UpdatedLanguageIsStored | Application/Services/AuthService.cs:156-168 | after the update the user is found with the new language and stamp, and nothing else of it changed |
| LanguageService.GetAllLanguages | Application/Services/LanguageService.cs:36-40 | exactly the active, not deleted languages, ordered by Code |
| LanguageService.GetLanguageByCode | Application/Services/LanguageService.cs:42-46 | a language with that code is found, active or not, iff a not deleted row holds the code |
| LanguageService.GetTranslation | Application/Services/LanguageService.cs:53-69 | nothing iff no not deleted translation with that key belongs to the live language with that code; else the response carries the key, the requested code and that translation's id, value and creation time |
| LanguageService.LanguageCodeOf | Application/Services/LanguageService.cs:128-129 | the language's code when a row with that id exists, deleted or not, else the empty string |
| LanguageService.GetTranslationById | Application/Services/LanguageService.cs:146-166 | nothing iff no row has that id; a soft-deleted translation is found too, answered with its language's code or the empty string |
| LanguageService.InsertKeepsOtherCodes | Application/Services/LanguageService.cs:88-98 | adding a translation of one language leaves every other code's translation map unchanged |
| LanguageService.ReplaceKeepsOtherCodes | Application/Services/LanguageService.cs:120-134 | changing a translation that stays in one language leaves every other code's translation map unchanged |
| LanguageService.SameKeysNeverClash | Application/Services/LanguageService.cs:120-124 | an update that keeps Key and LanguageId never breaks the (Key, LanguageId) index |
| LanguageService.TranslationClashesIff | Application/Services/LanguageService.cs:88-95 | a translation clashes iff another row, deleted or not, holds the same Key and LanguageId |
| LanguageService.CreateTranslation | Application/Services/LanguageService.cs:71-109 | an unknown or inactive code gives LanguageNotSupported and a live translation with the key gives TranslationKeyExists, each thrown with a GetString message that may cache the current language's map (a failure of that load is raised instead, never under the unique indexes); otherwise it fails iff a soft-deleted row holds the pair, leaving the cache as it was; a success inserts exactly the new row and drops that code's cached map; a failure leaves the table unchanged and a coherent cache coherent; inside a request a success also sets Items["CurrentLanguage"] to the code, and the request culture never changes |
| LanguageService.Throw | Application/Services/LocalizationService.cs:36-59 | a throw whose message GetString builds raises the intended exception, or GetString's own load failure; the cache gains the current language's map when it was missing and loadable, stays coherent when it was, and under the unique indexes the intended exception is raised |
| LanguageService.AddTranslation | Application/Services/LanguageService.cs:87-108 | the insert is refused with a conflict iff some row, deleted or not, already holds the (Key, LanguageId) pair; on success one row is added and the code's cache entry dropped; inside a request a success also sets Items["CurrentLanguage"] to the code, and the request culture never changes |
| LanguageService.UpdateTranslation | Application/Services/LanguageService.cs:111-144 | an unknown id gives TranslationNotFound, leaving the table unchanged, with the GetString message's cache fill only and a coherent cache coherent; otherwise only Value and UpdatedAt change, deleted or not, the response carries the language's code or the empty string; inside a request, a non-empty code of an active language becomes Items["CurrentLanguage"] and its cache entry is dropped, otherwise the Items, the cache and the request culture stay as they were |
| LanguageService.DeleteTranslation | Application/Services/LanguageService.cs:168-185 | an unknown id gives TranslationNotFound, leaving the table unchanged, with the GetString message's cache fill only and a coherent cache coherent; otherwise the translation is soft-deleted; inside a request, when the language row exists and its code is active, that code becomes Items["CurrentLanguage"] and its cache entry is dropped, otherwise the Items, the cache and the request culture stay as they were |
| LanguageService.NoLiveLanguageKeepsAll | Application/Services/LanguageService.cs:120-134 | a change to a translation whose language is missing or deleted changes no code's translation map |
| LanguageService.CreateKeepsCoherent | Application/Services/LanguageService.cs:87-98 | a create inside a request keeps the translation cache coherent with the database |
| LanguageService.UpdateKeepsCoherent | Application/Services/LanguageService.cs:120-134 | an update keeps the cache coherent when the language is gone or active; an inactive language keeps a stale entry |
| LanguageService.DeleteKeepsCoherent | Application/Services/LanguageService.cs:177-184 | a delete keeps the cache coherent under the same condition |
| LanguageService.CreatedTranslationIsServed | Application/Services/LanguageService.cs:87-98 | after a create the language translates the key to the new value |
| LanguageService.UpdatedTranslationIsServed | Application/Services/LanguageService.cs:120-134 | after an update of a live translation of a live language the key translates to the new value |
| LanguageService.DeletedTranslationFallsBack | Application/Services/LanguageService.cs:177-184 | after a delete the key translates to itself in its language |
| LocalizationService.HttpContext.constructor | Application/Services/LocalizationService.cs:63 | a request context starts with the given request and user, no Items and no culture |
| LocalizationService.CacheKeyInjective | Application/Services/LocalizationService.cs:39 | two codes with the same "translations_" cache key are the same code, so dropping one code's entry touches no other |
| LocalizationService.DefaultLanguageCodeIsActive | Application/Services/LocalizationService.cs:163-167 | the default code is the active default's code, which GetByCode finds active, or "vi" when there is none |
| LocalizationService.HeaderTags | Application/Services/LocalizationService.cs:120-122 | one code per comma-separated item, each its first ';' piece trimmed, cut at the first '-' and lowercased |
| LocalizationService.FirstActiveCode | Application/Services/LocalizationService.cs:124-131 | the first code of the list that names an active language, and nothing iff none does |
| LocalizationService.ScanActiveCodes | Application/Services/LocalizationService.cs:124-131 | the loop returns the first active code of the list |
| LocalizationService.ActiveQueryLanguage | Application/Services/LocalizationService.cs:70-78 | the query's first lang value is chosen iff it is non-empty and names an active language |
| LocalizationService.StoredLanguage | Application/Services/LocalizationService.cs:81-96 | a stored language is only ever read for an authenticated principal and is never empty |
| LocalizationService.CurrentLanguage | Application/Services/LocalizationService.cs:61-135 | the chosen code names an active language or is the default; an active query value wins, then an active stored user language |
| LocalizationService.Lookup | Application/Services/LocalizationService.cs:50-52 | the map's value for the key, or the key itself when the map lacks it |
| LocalizationService.TranslateMeaning | Application/Services/LocalizationService.cs:36-58 | under the unique indexes GetString never fails on the database and yields the key's active translation in that language, or the key |
| LocalizationService.RemoveKeepsCoherent | Application/Services/LocalizationService.cs:147 | dropping a cache entry keeps every remaining entry equal to what the database yields |
| LocalizationService.RemoveRestoresCoherent | Application/Services/LocalizationService.cs:146-147 | after a change confined to one code, dropping that code's entry makes the cache coherent again |
| LocalizationService.GetSupportedLanguages | Application/Services/LocalizationService.cs:152-161 | exactly the codes of the active, not deleted languages |
| LocalizationService.QueryLanguage | Application/Services/LocalizationService.cs:69-78 | priority 1 answers ActiveQueryLanguage |
| LocalizationService.UserLanguagePreference | Application/Services/LocalizationService.cs:80-103 | priority 2 answers the authenticated user's stored, non-empty language when it is active |
| LocalizationService.ItemsLanguage | Application/Services/LocalizationService.cs:105-114 | priority 3 answers the UserLanguage item when it is non-empty and active |
| LocalizationService.HeaderLanguage | Application/Services/LocalizationService.cs:116-132 | priority 4 answers the first active code of the first Accept-Language value |
| LocalizationService.Localizer.constructor | Application/Services/LocalizationService.cs:22-34 | the service holds the request context, or none, and the cache it is given |
| LocalizationService.Localizer.GetCurrentLanguage | Application/Services/LocalizationService.cs:61-135 | the code is the default's without a request and CurrentLanguage within one |
| LocalizationService.Localizer.GetString | Application/Services/LocalizationService.cs:36-59 | a cached map answers the lookup unchanged; otherwise the map is loaded and cached; a coherent cache stays coherent and the answer is what the database gives |
| LocalizationService.Localizer.SetLanguage | Application/Services/LocalizationService.cs:137-150 | inside a request an active code is recorded as CurrentLanguage and its cache entry dropped; otherwise nothing changes |
| LocalizationService.QueryWins | Application/Services/LocalizationService.cs:69-78 | an active query value decides alone, whatever the user, the Items and the header |
| LocalizationService.AnonymousIgnoresStore | Application/Services/LocalizationService.cs:81 | for an anonymous request the stored user languages do not matter |
| LocalizationService.QValueIgnored | Application/Services/LocalizationService.cs:121 | the q-value and any other parameter of an Accept-Language item do not change its code |
| LocalizationService.PrimarySubtag | Application/Services/LocalizationService.cs:121 | only the primary subtag counts, lowercased, so en-US and EN-gb both give en |
| LocalizationMiddleware.MiddlewareCulture | Infrastructure/Middleware/LocalizationMiddleware.cs:26-81 | the culture names an active language or is the default; a non-empty query value decides alone, its own code when active and the default otherwise |
| LocalizationMiddleware.SelectCulture | Infrastructure/Middleware/LocalizationMiddleware.cs:26-81 | the branches and the header loop choose MiddlewareCulture |
| LocalizationMiddleware.InvokeAsync | Infrastructure/Middleware/LocalizationMiddleware.cs:21-92 | CurrentLanguage and UserLanguage in Items and the request culture all become the chosen culture, and no other item changes |
| LocalizationMiddleware.HeaderHidesUser | Infrastructure/Middleware/LocalizationMiddleware.cs:41-81 | with no query value, a present Accept-Language header decides, whatever the user and the user store |
| LocalizationMiddleware.UserLanguageOnlyAsLastResort | Infrastructure/Middleware/LocalizationMiddleware.cs:58-81 | the stored user language is chosen only with no query value and no header |
| LocalizationMiddleware.MiddlewareTakesSingleHeader | Infrastructure/Middleware/LocalizationMiddleware.cs:41-57 | with no query value and one header value naming an active language, the middleware takes that language |
| LocalizationMiddleware.OrdersDisagree | Infrastructure/Middleware/LocalizationMiddleware.cs:30-81 | with a header language and an active stored user language both present, the middleware chooses the header's while the service chooses the user's |
| LocalizationMiddleware.ServiceFollowsMiddleware | Application/Services/LocalizationService.cs:105-114 | when neither the query nor the user decides, the service serves the active culture the middleware left in Items |
| LocalizedModelStateFilter.RequiredKey | Infrastructure/Filters/LocalizedModelStateFilter.cs:75-104 | a required message always maps to one of the required-group keys, by the first field rule that matches |
| LocalizedModelStateFilter.MinLengthKey | Infrastructure/Filters/LocalizedModelStateFilter.cs:110-115 | a minimum-length message maps to PasswordMinLength or MinLength |
| LocalizedModelStateFilter.MaxLengthKey | Infrastructure/Filters/LocalizedModelStateFilter.cs:117-136 | a maximum-length message never maps to a required-group key |
| LocalizedModelStateFilter.RangeKey | Infrastructure/Filters/LocalizedModelStateFilter.cs:141-146 | a range message maps to LanguageCodeLength or Range |
| LocalizedModelStateFilter.Classify | Infrastructure/Filters/LocalizedModelStateFilter.cs:63-149 | a kept message is the original, and an empty message is always kept |
| LocalizedModelStateFilter.TranslateErrorMessage | Infrastructure/Filters/LocalizedModelStateFilter.cs:63-149 | a classified message becomes its key's translation, or the key's name when untranslated; any other message is returned as it is |
| LocalizedModelStateFilter.EmptyMessageUnchanged | Infrastructure/Filters/LocalizedModelStateFilter.cs:65-66 | an empty message is returned unchanged |
| LocalizedModelStateFilter.RequiredTakesPrecedence | Infrastructure/Filters/LocalizedModelStateFilter.cs:72-105 | a message mentioning required is classified by its field under the required group, whatever else it says |
| LocalizedModelStateFilter.VerbatimIff | Infrastructure/Filters/LocalizedModelStateFilter.cs:63-149 | a message is kept as it is iff it is empty or matches no keyword group |
| LocalizedModelStateFilter.RoleNameNeedsProduct | Infrastructure/Filters/LocalizedModelStateFilter.cs:87-94 | RoleNameRequired is chosen only for a field containing both rolename and product, since the name rule comes first |
| LocalizedModelStateFilter.RoleNameReachable | Infrastructure/Filters/LocalizedModelStateFilter.cs:75-94 | the field productrolename does select RoleNameRequired |
| LocalizedModelStateFilter.TranslateAll | Infrastructure/Filters/LocalizedModelStateFilter.cs:31-37 | one translated message per message of a key, in order |
| LocalizedModelStateFilter.TranslatedShape | Infrastructure/Filters/LocalizedModelStateFilter.cs:21-52 | translation keeps every key and, under it, the number and order of messages; a valid state stays as it is |
| LocalizedModelStateFilter.ModelStateDictionary.constructor | Infrastructure/Filters/LocalizedModelStateFilter.cs:21 | the state holds the given errors |
| LocalizedModelStateFilter.ModelStateDictionary.Remove | Infrastructure/Filters/LocalizedModelStateFilter.cs:46 | the key and its errors are dropped |
| LocalizedModelStateFilter.ModelStateDictionary.AddModelError | Infrastructure/Filters/LocalizedModelStateFilter.cs:49 | the message is appended to the key's errors, creating the key when missing |
| LocalizedModelStateFilter.TranslateErrors | Infrastructure/Filters/LocalizedModelStateFilter.cs:31-37 | the inner loop yields TranslateAll of the key's messages |
| LocalizedModelStateFilter.ReplaceErrors | Infrastructure/Filters/LocalizedModelStateFilter.cs:46-50 | Remove then one AddModelError per message leaves exactly those messages under the key, in order |
| LocalizedModelStateFilter.CollectTranslations | Infrastructure/Filters/LocalizedModelStateFilter.cs:24-41 | exactly the keys holding errors are collected, each with its translated messages |
| LocalizedModelStateFilter.ApplyTranslations | Infrastructure/Filters/LocalizedModelStateFilter.cs:44-51 | every collected key gets its new messages and every other key keeps its own, with no key added or lost |
| LocalizedModelStateFilter.ReplacedIsTranslated | Infrastructure/Filters/LocalizedModelStateFilter.cs:21-52 | replacing the keys holding errors by their translations gives the translated state |
| LocalizedModelStateFilter.OnActionExecuting | Infrastructure/Filters/LocalizedModelStateFilter.cs:19-53 | a valid state is untouched and an invalid one becomes its translation, every key's messages replaced in order |

## Left out

- Asynchrony, `Task`, EF Core change tracking, `Include`, migrations and the database provider. Each repository call and its `SaveChangesAsync` are one step on an in-memory table.
- Reflection and expression trees in `DynamicFilterHelper`. They are replaced by explicit property schemas per entity.
- The runtime failures are modelled as error results rather than exceptions:
  - the null `Image` lowered by the product search term;
  - `Expression.Equal` of the `Guid?` `CategoryId` against a `Guid`;
  - the `Category` navigation, which `GetAllAsync` does not load.
- Culture-sensitive `ToLower` is ASCII lower-casing. The culture string comparer in `OrderBy` is ordinal comparison of characters.
- `Math.Ceiling` over doubles is integer ceiling division. Overflow in `Skip` is not modelled, since integers are unbounded.
- `Guid.NewGuid` is a deterministic fresh id. `DateTime.UtcNow` is an integer tick count given as a parameter.
- JWT signing, encoding and validation (HS256 of RFC 7518 over RFC 7519 tokens). A token is its claim list, its algorithm name and its expiry.
- `GenerateRefreshToken`: its random bytes are a parameter.
- AutoMapper profiles are explicit field copies.
- `UserManager` and `RoleManager` are the `Identity` store. Password hashing is not modelled: `CheckPassword` compares the stored secret. The user validators are the predicate `CreateAccepted` (fresh id, user name, email and password rules), and the role validator is the whitespace and duplicate-name test of `Identity.IdentityStore.CreateRoleAsync`.
- `string.Format` arguments of `GetString` are not applied, and the cache expiry time is not modelled.
- Exception messages are identified by their resource key; the translated text is not carried in the error. Only the translation writes of `LanguageService` call `GetString` to build their messages, with its cache fill. In the other services, the `GetString` call that builds each exception message, and its cache fill, are not modelled.
- HttpContext is reduced to the query, the Accept-Language values, the user and the string Items. `.Result` blocking is not modelled.
- Logging in `RequirePermissionAttribute` and in the middleware is not modelled.
- Controllers, `Program.cs` and dependency injection: these are HTTP plumbing and wiring.
- `DatabaseSeeder`:
  - `SeedTranslationsAsync` reads JSON files, and `SeedProductsAsync` is random, so both are left out.
  - `SeedUsersAsync` and `SeedCategoriesAsync` only call operations modelled elsewhere, so they are left out.
  - `SeedRolesAsync` takes the role ids as parameters instead of creating the roles.
- `LanguageService.GetTranslationsByLanguageCodeAsync` only forwards to `TranslationRepository.GetAllTranslationsByLanguageCode`, which is modelled.
- The services' `GetByIdAsync` methods are `Table.GetById` followed by a field copy.
- `JwtService.GetPrincipalFromExpiredToken`: the principal holds only the claims the token was built with. The registered iss, aud and exp claims that the token payload carries and validation turns into claims are left out, because no modelled code reads them.
- `LocalizationService.CurrentLanguage`: its contract states priorities 1 and 2 only. Priorities 3 and 4 are stated by `ItemsLanguage`, `HeaderLanguage` and `LocalizationMiddleware.ServiceFollowsMiddleware`.
- `AuthService.RefreshOutcome`: its contract names the token-validation error and the shape of a success, but not the InvalidToken and UserNotFound cases. Those are in its body, and `IssuedTokenRefreshes` states the round trip.
- `LocalizedModelStateFilter.OnActionExecuting`: the filter takes the current language's translation map as a parameter, not a call to `GetString`, so its cache effects are not modelled.

## Findings

| source | as written | input that shows it | evidently intended | confidence | as-written member | corrected member |
|---|---|---|---|---|---|---|
| Application/Services/PermissionService.cs:258-283 | every active link of the role is soft-deleted, then a fresh link is inserted for each requested permission, but the (RoleId, PermissionId) unique index is not filtered on IsDeleted | a role that ever had a link to one of the requested permissions, e.g. the same non-empty list assigned twice, makes SaveChanges fail with a conflict | the role ends with exactly the requested links active, restoring soft-deleted links as the seeder does | not executed | PermissionService.AssignPermissionsToRole | PermissionService.AssignReconciled |
