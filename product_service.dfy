/**
 * ProductService: create, update and soft-delete products, and their two
 * listings. GetPaged searches ProductCode and ProductName and keeps table
 * order. GetFiltered applies the dynamic filters of a ProductFilterRequest,
 * then HasImage and CategoryCode by hand, then counts, sorts and pages.
 *
 * The listing runs in memory over the products GetAllAsync loaded, so a
 * product's Category navigation is set only when the context tracks that
 * category: the products are loaded without Include, and Include on an
 * in-memory query does nothing. Which categories are tracked is a parameter
 * (`tracked`); the category GetByCodeAsync finds is tracked from then on,
 * before the query runs.
 */
module ProductService {
  import opened Wrappers
  import opened Entities
  import opened Text
  import opened Seqs
  import opened Sorting
  import opened Paging
  import opened Queries
  import opened DynamicFilter
  import opened GenericRepository
  import opened ProductRepository
  import CategoryRepository
  import opened Listing

  // ---------------------------------------------------------------- schema

  /** Product's properties: ProductCode, ProductName, Image, CategoryId, the Category navigation, then BaseEntity's. */
  function ProductPropType(name: string): Option<PropType> {
    if name == "ProductCode" || name == "ProductName" || name == "Image" then Some(TString)
    else if name == "CategoryId" then Some(TNullableGuid)
    else if name == "Category" then Some(TReference(true))
    else if name == "Id" then Some(TGuid)
    else if name == "CreatedAt" then Some(TDateTime)
    else if name == "UpdatedAt" then Some(TNullableDateTime)
    else if name == "IsDeleted" then Some(TBool)
    else None
  }

  function ProductValue(x: Row<Product>, name: string): Value {
    if name == "ProductCode" then VStr(x.data.productCode)
    else if name == "ProductName" then VStr(x.data.productName)
    else if name == "Image" then (if x.data.image.Some? then VStr(x.data.image.value) else VNull)
    else if name == "CategoryId" then (if x.data.categoryId.Some? then VGuid(x.data.categoryId.value) else VNull)
    else if name == "Id" then VGuid(x.id)
    else if name == "CreatedAt" then VTime(x.createdAt)
    else if name == "UpdatedAt" then (if x.updatedAt.Some? then VTime(x.updatedAt.value) else VNull)
    else if name == "IsDeleted" then VBool(x.isDeleted)
    else if name == "Category" then VObject
    else VNull
  }

  /** e.Category.Code: set when the product has a category and the context tracks it; otherwise null. */
  function CategoryCodeOf(categories: Table<Category>, tracked: set<Guid>, x: Row<Product>): Option<string> {
    if x.data.categoryId.Some? && x.data.categoryId.value in tracked && x.data.categoryId.value in categories.rows
    then Some(categories.rows[x.data.categoryId.value].data.code)
    else None
  }

  function ProductSchema(categories: Table<Category>, tracked: set<Guid>): Schema<Row<Product>> {
    Schema(ProductPropType, ["ProductCode", "ProductName", "Image"], ProductValue,
           (x: Row<Product>, nav: string) => if nav == "Category" then CategoryCodeOf(categories, tracked, x) else None)
  }

  // --------------------------------------------------------------- listing

  /** ProductFilterRequest: the common filter fields plus its five own properties. */
  datatype ProductFilterRequest = ProductFilterRequest(
    common: FilterRequest, productCode: Option<string>, productName: Option<string>,
    hasImage: Option<bool>, categoryId: Option<Guid>, categoryCode: Option<string>)

  /** The request as reflection sees it, in declaration order. */
  function AsFilter(request: ProductFilterRequest): FilterRequest {
    request.common.(declared := [FilterProperty("ProductCode", StringValue(request.productCode)),
                                 FilterProperty("ProductName", StringValue(request.productName)),
                                 FilterProperty("HasImage", BoolValue(request.hasImage)),
                                 FilterProperty("CategoryId", GuidValue(request.categoryId)),
                                 FilterProperty("CategoryCode", StringValue(request.categoryCode))])
  }

  datatype ProductSortKey = ByProductCode | ByProductName | ByCreatedAt | ByUpdatedAt

  /** The arms of the sort switch, in source order. */
  const SortArms: seq<(string, ProductSortKey)> :=
    [("productcode", ByProductCode), ("productname", ByProductName), ("createdat", ByCreatedAt), ("updatedat", ByUpdatedAt)]

  function ProductCodeKey(x: Row<Product>): SortKey { TextKey(x.data.productCode) }

  function ProductNameKey(x: Row<Product>): SortKey { TextKey(x.data.productName) }

  function KeyOf(k: ProductSortKey): Row<Product> -> SortKey {
    match k
    case ByProductCode => ProductCodeKey
    case ByProductName => ProductNameKey
    case ByCreatedAt => CreatedAtKey
    case ByUpdatedAt => UpdatedAtKey
  }

  /** The category a non-blank CategoryCode names, looked up by exact code among active categories. */
  function NamedCategory(categories: Table<Category>, request: ProductFilterRequest): Option<Row<Category>> {
    if IsNullOrWhiteSpace(request.categoryCode) then None
    else CategoryRepository.GetByCode(categories, request.categoryCode.value)
  }

  /** The categories tracked when the query runs: those tracked before, and the one the lookup found. */
  function TrackedAtRun(categories: Table<Category>, tracked: set<Guid>, request: ProductFilterRequest): set<Guid> {
    match NamedCategory(categories, request)
    case Some(c) => tracked + {c.id}
    case None => tracked
  }

  /** The conditions the service adds by hand after the dynamic ones: HasImage, then CategoryCode. */
  function ManualConditions(categories: Table<Category>, request: ProductFilterRequest): seq<Predicate> {
    (if request.hasImage.Some? then [HasText("Image", request.hasImage.value)] else [])
    + (if IsNullOrWhiteSpace(request.categoryCode) then []
       else match NamedCategory(categories, request)
            case Some(c) => [Equals("CategoryId", VGuid(c.id))]
            case None => [Never])
  }

  /** The schema the query runs against: navigations resolve over the categories tracked by then. */
  function AtRun(categories: Table<Category>, tracked: set<Guid>, request: ProductFilterRequest): Schema<Row<Product>> {
    ProductSchema(categories, TrackedAtRun(categories, tracked, request))
  }

  /** Every condition of the query: the dynamic ones, then HasImage and CategoryCode; or the error building one raises. */
  function AllConditions(categories: Table<Category>, tracked: set<Guid>, request: ProductFilterRequest): Result<seq<Predicate>> {
    match Conditions(AtRun(categories, tracked, request), AsFilter(request))
    case Err(e) => Err(e)
    case Ok(cs) => Ok(cs + ManualConditions(categories, request))
  }

  /** What GetFilteredAsync returns, or the exception it throws. */
  function FilteredListing(products: Table<Product>, categories: Table<Category>, tracked: set<Guid>,
                           request: ProductFilterRequest): Result<PagedResponse<Row<Product>>> {
    var f := AsFilter(request);
    match AllConditions(categories, tracked, request)
    case Err(e) => Err(e)
    case Ok(cs) =>
      match Run(AtRun(categories, tracked, request), Query(products.GetAll(), cs))
      case None => Err(NullReference)
      case Some(rows) =>
        var o := Choose(SortArms, ByCreatedAt, f.sortBy, f.sortDirection);
        Ok(Listed(rows, KeyOf(o.field), o.ascending, f.pageNumber, f.pageSize))
  }

  /** GetFilteredAsync: the dynamic filters, HasImage, CategoryCode, then count, sort and page. */
  method GetFiltered(products: Table<Product>, categories: Table<Category>, tracked: set<Guid>,
                     request: ProductFilterRequest) returns (r: Result<PagedResponse<Row<Product>>>)
    ensures r == FilteredListing(products, categories, tracked, request)
  {
    var f := AsFilter(request);
    var s := AtRun(categories, tracked, request);
    var query := Query(products.GetAll(), []);
    var filtered := ApplyDynamicFilters(s, query, f);
    PropertyConditionsErrorKind(s, FilterProperties(f));
    if filtered.Err? {
      return Err(filtered.error);
    }
    var q := filtered.value;
    ghost var image: seq<Predicate> := [];
    if request.hasImage.Some? {
      q, image := Where(q, HasText("Image", request.hasImage.value)), [HasText("Image", request.hasImage.value)];
    }
    ghost var category: seq<Predicate> := [];
    if !IsNullOrWhiteSpace(request.categoryCode) {
      var found := CategoryRepository.GetByCode(categories, request.categoryCode.value);
      var c := if found.Some? then Equals("CategoryId", VGuid(found.value.id)) else Never;
      assert [c] == ManualConditions(categories, request)[|image|..];
      q, category := Where(q, c), [c];
    }
    assert ManualConditions(categories, request) == image + category;
    assert q == Query(filtered.value.source, filtered.value.conditions + (image + category));
    ghost var cs := Conditions(s, f).value;
    assert [] + cs == cs;
    EquivalentAppend(s, filtered.value, Query(products.GetAll(), cs), ManualConditions(categories, request));
    EquivalentRun(s, q, Query(products.GetAll(), AllConditions(categories, tracked, request).value));
    var rows := Run(s, q);
    if rows.None? {
      return Err(NullReference);
    }
    var o := Choose(SortArms, ByCreatedAt, f.sortBy, f.sortDirection);
    r := Ok(Listed(rows.value, KeyOf(o.field), o.ascending, f.pageNumber, f.pageSize));
  }

  // ------------------------------------------------- what the filters mean

  /** A text filter field: absent or empty adds nothing, otherwise a case-insensitive substring test. */
  predicate TextMatches(filter: Option<string>, value: string) {
    filter.None? || filter.value == "" || Text.Contains(Lower(value), Lower(filter.value))
  }

  /** The search disjunction over ProductCode, ProductName and Image, for a product whose scan does not throw. */
  predicate SearchHit(term: string, x: Row<Product>) {
    || Text.Contains(Lower(x.data.productCode), Lower(term))
    || Text.Contains(Lower(x.data.productName), Lower(term))
    || (x.data.image.Some? && Text.Contains(Lower(x.data.image.value), Lower(term)))
  }

  /** !string.IsNullOrEmpty(p.Image) == hasImage. */
  predicate ImageMatches(hasImage: Option<bool>, x: Row<Product>) {
    hasImage.None? || ((x.data.image.Some? && x.data.image.value != "") == hasImage.value)
  }

  /** A non-blank CategoryCode keeps the products of the category with exactly that code; none when there is no such category. */
  predicate CategoryMatches(categories: Table<Category>, request: ProductFilterRequest, x: Row<Product>) {
    IsNullOrWhiteSpace(request.categoryCode)
    || (NamedCategory(categories, request).Some? && x.data.categoryId == Some(NamedCategory(categories, request).value.id))
  }

  /**
   * The product filter as a plain conjunction, for a product on which no
   * condition throws: the text fields, the Category.Code substring test of
   * the dynamic filter, the base filters, HasImage and the category lookup.
   */
  predicate Matches(categories: Table<Category>, tracked: set<Guid>, request: ProductFilterRequest, x: Row<Product>) {
    && TextMatches(request.productCode, x.data.productCode)
    && TextMatches(request.productName, x.data.productName)
    && (request.categoryCode.None? || request.categoryCode.value == ""
        || (CategoryCodeOf(categories, tracked, x).Some?
            && Text.Contains(Lower(CategoryCodeOf(categories, tracked, x).value), Lower(request.categoryCode.value))))
    && BaseMatches(request.common, x, !IsNullOrWhiteSpace(request.common.searchTerm) && SearchHit(request.common.searchTerm.value, x))
    && ImageMatches(request.hasImage, x)
    && CategoryMatches(categories, request, x)
  }

  /**
   * A product on which no condition can throw: its Category navigation is set
   * when CategoryCode is filled, and it has an Image or hits ProductCode or
   * ProductName when there is a search term.
   */
  predicate Safe(categories: Table<Category>, tracked: set<Guid>, request: ProductFilterRequest, x: Row<Product>) {
    && (request.categoryCode.None? || request.categoryCode.value == "" || CategoryCodeOf(categories, tracked, x).Some?)
    && (IsNullOrWhiteSpace(request.common.searchTerm) || x.data.image.Some?
        || Text.Contains(Lower(x.data.productCode), Lower(request.common.searchTerm.value))
        || Text.Contains(Lower(x.data.productName), Lower(request.common.searchTerm.value)))
  }

  /** The conditions of the three string properties that yield one, when they hold text. */
  function FieldConditions(request: ProductFilterRequest): seq<Predicate> {
    OptSeq(CodeCondition(request.productCode)) + OptSeq(NameCondition(request.productName))
    + OptSeq(CategoryCodeCondition(request.categoryCode))
  }

  function CodeCondition(v: Option<string>): Option<Predicate> {
    if v.Some? && v.value != "" then Some(Contains("ProductCode", Lower(v.value))) else None
  }

  function NameCondition(v: Option<string>): Option<Predicate> {
    if v.Some? && v.value != "" then Some(Contains("ProductName", Lower(v.value))) else None
  }

  function CategoryCodeCondition(v: Option<string>): Option<Predicate> {
    if v.Some? && v.value != "" then Some(NavCodeContains("Category", Lower(Lower(v.value)))) else None
  }

  /** "ProductCode" is not the name of a navigation with "Code" removed: what remains starts with 'P'. */
  lemma {:induction false} ProductCodeNavigation()
    ensures ProductPropType(NavigationName("ProductCode")) != Some(TReference(true))
  {
    var s := "ProductCode";
    assert !StartsWith(s, "Code") by { assert s[0] != "Code"[0]; }
    var n := NavigationName(s);
    assert n == [s[0]] + Replace(s[1..], "Code", "");
    OnlyCategoryIsNavigation(n);
  }

  /** The only navigation of Product whose type has a Code is Category. */
  lemma {:induction false} OnlyCategoryIsNavigation(n: string)
    requires |n| > 0 && n[0] == 'P'
    ensures ProductPropType(n) != Some(TReference(true))
  {
    assert n != "Category" by { assert "Category"[0] == 'C'; }
  }

  /** "ProductCode" ends in "Code", but no navigation called "Product" exists, so it is a plain string filter. */
  lemma {:induction false} ProductCodeFieldCondition(s: Schema<Row<Product>>, v: Option<string>)
    requires s.propType == ProductPropType
    ensures FieldCondition(s, FilterProperty("ProductCode", StringValue(v))) == Ok(CodeCondition(v))
  {
    ProductCodeNavigation();
  }

  lemma {:induction false} ProductNameFieldCondition(s: Schema<Row<Product>>, v: Option<string>)
    requires s.propType == ProductPropType
    ensures FieldCondition(s, FilterProperty("ProductName", StringValue(v))) == Ok(NameCondition(v))
  {
    assert !EndsWith("ProductName", "Code") by { assert "ProductName"[7] != "Code"[0]; }
  }

  /** HasImage is no property of Product, so the dynamic filter skips it. */
  lemma {:induction false} HasImageFieldCondition(s: Schema<Row<Product>>, v: Option<bool>)
    requires s.propType == ProductPropType
    ensures FieldCondition(s, FilterProperty("HasImage", BoolValue(v))) == Ok(None)
  {
  }

  /**
   * A CategoryId filter is a Guid compared with the Guid? property CategoryId:
   * building that equality throws.
   */
  lemma {:induction false} CategoryIdFieldCondition(s: Schema<Row<Product>>, g: Guid)
    requires s.propType == ProductPropType
    ensures FieldCondition(s, FilterProperty("CategoryId", GuidValue(Some(g)))) == Err(MalformedExpression)
  {
    assert !EndsWith("CategoryId", "Code") by { assert "CategoryId"[6] != "Code"[0]; }
  }

  /** "CategoryCode" names the Category navigation, whose type has a Code. */
  lemma {:induction false} CategoryCodeNavigation()
    ensures NavigationName("CategoryCode") == "Category"
  {
    var s := "CategoryCode";
    assert !StartsWith(s, "Code") by { assert s[1] != "Code"[1]; }
    assert s[1..] == "ategory" + "Code";
    ReplaceTrailing("ategory", "Code");
    assert NavigationName(s) == [s[0]] + Replace(s[1..], "Code", "");
  }

  lemma {:induction false} CategoryCodeFieldCondition(s: Schema<Row<Product>>, v: Option<string>)
    requires s.propType == ProductPropType
    ensures FieldCondition(s, FilterProperty("CategoryCode", StringValue(v))) == Ok(CategoryCodeCondition(v))
  {
    if v.Some? && v.value != "" {
      CategoryCodeNavigation();
      assert EndsWith("CategoryCode", "Code");
    }
  }

  /** What each declared property of a request without CategoryId contributes. */
  function DeclaredOf(request: ProductFilterRequest): seq<Option<Predicate>> {
    [CodeCondition(request.productCode), NameCondition(request.productName), None, None, CategoryCodeCondition(request.categoryCode)]
  }

  lemma {:induction false} DeclaredFieldConditions(s: Schema<Row<Product>>, request: ProductFilterRequest)
    requires s.propType == ProductPropType && request.categoryId.None?
    ensures forall i :: 0 <= i < 5 ==> FieldCondition(s, AsFilter(request).declared[i]) == Ok(DeclaredOf(request)[i])
  {
    ProductCodeFieldCondition(s, request.productCode);
    ProductNameFieldCondition(s, request.productName);
    HasImageFieldCondition(s, request.hasImage);
    CategoryCodeFieldCondition(s, request.categoryCode);
  }

  lemma {:induction false} PresentOfDeclared(request: ProductFilterRequest)
    ensures Present(DeclaredOf(request)) == FieldConditions(request)
  {
    var c := CategoryCodeCondition(request.categoryCode);
    var cs := DeclaredOf(request);
    assert cs[1..][1..][1..][1..][1..] == [];
    assert Present(cs[1..][1..][1..][1..]) == OptSeq(c);
    assert Present(cs[1..][1..]) == OptSeq(c);
    assert Present([]) == [];
  }

  /** Building the dynamic filter of a request without CategoryId never throws: it yields the text-field conditions. */
  lemma {:induction false} PropertyConditionsOfRequest(s: Schema<Row<Product>>, request: ProductFilterRequest)
    requires s.propType == ProductPropType && request.categoryId.None?
    ensures PropertyConditions(s, FilterProperties(AsFilter(request))) == Ok(FieldConditions(request))
  {
    DeclaredFieldConditions(s, request);
    DeclaredConditions(s, AsFilter(request), DeclaredOf(request));
    PresentOfDeclared(request);
  }

  /** Any CategoryId filter makes GetFilteredAsync throw while it builds the query. */
  lemma {:induction false} CategoryIdFilterThrows(products: Table<Product>, categories: Table<Category>, tracked: set<Guid>, request: ProductFilterRequest)
    requires request.categoryId.Some?
    ensures FilteredListing(products, categories, tracked, request) == Err(MalformedExpression)
  {
    var s := AtRun(categories, tracked, request);
    var props := AsFilter(request).declared;
    ProductCodeFieldCondition(s, request.productCode);
    ProductNameFieldCondition(s, request.productName);
    HasImageFieldCondition(s, request.hasImage);
    CategoryIdFieldCondition(s, request.categoryId.value);
    PropertyConditionsOk(s, props[..3], [CodeCondition(request.productCode), NameCondition(request.productName), None]);
    assert props[..4] == props[..3] + [props[3]];
    PropertyConditionsSnoc(s, props[..3], props[3]);
    PropertyConditionsErrPersists(s, props, 4);
    PropertyConditionsSkipNull(s, props);
    PropertyConditionsErrorKind(s, props);
  }

  /**
   * The search scans ProductCode, ProductName, then Image: it throws only when
   * neither of the first two contains the term and Image is null.
   */
  lemma {:induction false} SearchEvalOnProduct(categories: Table<Category>, tracked: set<Guid>, term: string, x: Row<Product>)
    ensures var s := ProductSchema(categories, tracked);
      SearchEval(s, s.stringProps, Lower(term), x) ==
        if x.data.image.Some? || Text.Contains(Lower(x.data.productCode), Lower(term))
           || Text.Contains(Lower(x.data.productName), Lower(term))
        then Some(SearchHit(term, x)) else None
  {
    var props := ProductSchema(categories, tracked).stringProps;
    assert props[1..] == ["ProductName", "Image"];
    assert props[1..][1..] == ["Image"];
    assert props[1..][1..][1..] == [];
  }

  /** The string fields' conditions decide the two substring tests and the Category.Code test, when the navigation is set. */
  lemma {:induction false} FieldConditionsMeaning(categories: Table<Category>, tracked: set<Guid>, request: ProductFilterRequest, x: Row<Product>)
    requires request.categoryCode.None? || request.categoryCode.value == "" || CategoryCodeOf(categories, tracked, x).Some?
    ensures EvalAll(ProductSchema(categories, tracked), FieldConditions(request), x) ==
      Some(&& TextMatches(request.productCode, x.data.productCode)
           && TextMatches(request.productName, x.data.productName)
           && (request.categoryCode.None? || request.categoryCode.value == ""
               || Text.Contains(Lower(CategoryCodeOf(categories, tracked, x).value), Lower(request.categoryCode.value))))
  {
    var s := ProductSchema(categories, tracked);
    var code := OptSeq(CodeCondition(request.productCode));
    var name := OptSeq(NameCondition(request.productName));
    var cat := OptSeq(CategoryCodeCondition(request.categoryCode));
    if code != [] { EvalAllOne(s, code[0], x); }
    if name != [] { EvalAllOne(s, name[0], x); }
    CategoryConditionMeaning(categories, tracked, request, x);
    EvalAllAppend(s, code, name, x);
    EvalAllAppend(s, code + name, cat, x);
  }

  /** The Category.Code condition, when the request sets one, tests the tracked category's code. */
  lemma {:induction false} CategoryConditionMeaning(categories: Table<Category>, tracked: set<Guid>, request: ProductFilterRequest, x: Row<Product>)
    requires request.categoryCode.None? || request.categoryCode.value == "" || CategoryCodeOf(categories, tracked, x).Some?
    ensures EvalAll(ProductSchema(categories, tracked), OptSeq(CategoryCodeCondition(request.categoryCode)), x) ==
      Some(request.categoryCode.None? || request.categoryCode.value == ""
           || Text.Contains(Lower(CategoryCodeOf(categories, tracked, x).value), Lower(request.categoryCode.value)))
  {
    if request.categoryCode.Some? && request.categoryCode.value != "" {
      var c := NavCodeContains("Category", Lower(Lower(request.categoryCode.value)));
      assert OptSeq(CategoryCodeCondition(request.categoryCode)) == [c];
      EvalAllOne(ProductSchema(categories, tracked), c, x);
      LowerIdempotent(request.categoryCode.value);
    }
  }

  /** HasImage keeps the products whose Image is or is not empty; CategoryCode keeps those of the category it names. */
  lemma {:induction false} ManualConditionsMeaning(categories: Table<Category>, tracked: set<Guid>, request: ProductFilterRequest, x: Row<Product>)
    ensures EvalAll(ProductSchema(categories, tracked), ManualConditions(categories, request), x) ==
      Some(ImageMatches(request.hasImage, x) && CategoryMatches(categories, request, x))
  {
    var s := ProductSchema(categories, tracked);
    var image := if request.hasImage.Some? then [HasText("Image", request.hasImage.value)] else [];
    var category := if IsNullOrWhiteSpace(request.categoryCode) then []
       else match NamedCategory(categories, request)
            case Some(c) => [Equals("CategoryId", VGuid(c.id))]
            case None => [Never];
    if image != [] { EvalAllOne(s, image[0], x); }
    if category != [] { EvalAllOne(s, category[0], x); }
    EvalAllAppend(s, image, category, x);
  }

  /** The schema reads a product's own columns as stored. */
  lemma {:induction false} ProductSchemaFacts(categories: Table<Category>, tracked: set<Guid>, x: Row<Product>)
    ensures var s := ProductSchema(categories, tracked);
      && s.propType == ProductPropType && s.stringProps != []
      && s.get(x, "IsDeleted") == VBool(x.isDeleted) && s.get(x, "CreatedAt") == VTime(x.createdAt)
  {
  }

  /**
   * On a product where nothing throws, the query's conditions hold exactly
   * when the product matches every filled field of the request.
   */
  lemma {:induction false} ConditionsMeaning(categories: Table<Category>, tracked: set<Guid>, request: ProductFilterRequest, x: Row<Product>)
    requires request.categoryId.None? && Safe(categories, TrackedAtRun(categories, tracked, request), request, x)
    ensures AllConditions(categories, tracked, request).Ok?
    ensures EvalAll(AtRun(categories, tracked, request), AllConditions(categories, tracked, request).value, x)
         == Some(Matches(categories, TrackedAtRun(categories, tracked, request), request, x))
  {
    var at := TrackedAtRun(categories, tracked, request);
    var s := AtRun(categories, tracked, request);
    var f := AsFilter(request);
    ProductSchemaFacts(categories, at, x);
    PropertyConditionsOfRequest(s, request);
    var hit := !IsNullOrWhiteSpace(request.common.searchTerm) && SearchHit(request.common.searchTerm.value, x);
    if !IsNullOrWhiteSpace(f.searchTerm) {
      SearchEvalOnProduct(categories, at, f.searchTerm.value, x);
    }
    BaseConditionsMeaning(s, f, x, hit);
    FieldConditionsMeaning(categories, at, request, x);
    ManualConditionsMeaning(categories, at, request, x);
    EvalAllAppend(s, FieldConditions(request), BaseConditions(s, f), x);
    EvalAllAppend(s, FieldConditions(request) + BaseConditions(s, f), ManualConditions(categories, request), x);
  }

  /**
   * When no CategoryId is given and no active product can make a condition
   * throw, the query keeps exactly the active products matching the request,
   * in table order.
   */
  lemma {:induction false} FilteredRowsOfRequest(products: Table<Product>, categories: Table<Category>, tracked: set<Guid>, request: ProductFilterRequest)
    requires products.WellFormed() && request.categoryId.None?
    requires forall x :: x in products.GetAll() ==> Safe(categories, TrackedAtRun(categories, tracked, request), request, x)
    ensures AllConditions(categories, tracked, request).Ok?
    ensures Run(AtRun(categories, tracked, request), Query(products.GetAll(), AllConditions(categories, tracked, request).value)).Some?
    ensures var rows := Run(AtRun(categories, tracked, request), Query(products.GetAll(), AllConditions(categories, tracked, request).value)).value;
      forall x :: x in rows <==> && x.id in products.rows && products.rows[x.id] == x && !x.isDeleted
                                 && Matches(categories, TrackedAtRun(categories, tracked, request), request, x)
  {
    var s := AtRun(categories, tracked, request);
    var at := TrackedAtRun(categories, tracked, request);
    var xs := products.GetAll();
    ProductSchemaFacts(categories, at, Row(0, 0, None, false, Product("", "", None, None)));
    PropertyConditionsOfRequest(s, request);
    var cs := AllConditions(categories, tracked, request).value;
    forall x | x in xs ensures EvalAll(s, cs, x) == Some(Matches(categories, at, request, x)) {
      ConditionsMeaning(categories, tracked, request, x);
    }
    var m := x => Matches(categories, at, request, x);
    SelectDecidedBy(s, xs, cs, m);
    var rows := Run(s, Query(xs, cs)).value;
    forall x ensures x in rows <==> x.id in products.rows && products.rows[x.id] == x && !x.isDeleted && Matches(categories, at, request, x) {
      GetAllMembers(products, x);
      assert m(x) == Matches(categories, at, request, x);
    }
  }

  /**
   * GetFilteredAsync, when it does not throw: the response counts every
   * matching active product, echoes the clamped page and size, and holds the
   * requested page of those products sorted by the chosen key.
   */
  lemma {:induction false} GetFilteredSpec(products: Table<Product>, categories: Table<Category>, tracked: set<Guid>, request: ProductFilterRequest)
    requires products.WellFormed() && request.categoryId.None?
    requires forall x :: x in products.GetAll() ==> Safe(categories, TrackedAtRun(categories, tracked, request), request, x)
    ensures AllConditions(categories, tracked, request).Ok?
    ensures Run(AtRun(categories, tracked, request), Query(products.GetAll(), AllConditions(categories, tracked, request).value)).Some?
    ensures FilteredListing(products, categories, tracked, request).Ok?
    ensures var f := AsFilter(request);
      var rows := Run(AtRun(categories, tracked, request), Query(products.GetAll(), AllConditions(categories, tracked, request).value)).value;
      var o := Choose(SortArms, ByCreatedAt, f.sortBy, f.sortDirection);
      var sorted := SortBy(rows, KeyOf(o.field), o.ascending);
      var r := FilteredListing(products, categories, tracked, request).value;
      && r.totalRecords == |rows|
      && r.pageNumber == ClampPageNumber(f.pageNumber) && r.pageSize == ClampPageSize(f.pageSize)
      && r.totalPages == TotalPages(|rows|, r.pageSize)
      && |r.data| == PageLength(|rows|, PageStart(r.pageNumber, r.pageSize), r.pageSize)
      && IsWindow(r.data, sorted, PageStart(r.pageNumber, r.pageSize))
  {
    var f := AsFilter(request);
    FilteredRowsOfRequest(products, categories, tracked, request);
    var rows := Run(AtRun(categories, tracked, request), Query(products.GetAll(), AllConditions(categories, tracked, request).value)).value;
    var o := Choose(SortArms, ByCreatedAt, f.sortBy, f.sortDirection);
    assert FilteredListing(products, categories, tracked, request) == Ok(Listed(rows, KeyOf(o.field), o.ascending, f.pageNumber, f.pageSize));
    ListedSpec(rows, KeyOf(o.field), o.ascending, f.pageNumber, f.pageSize);
  }

  /** The listing is sorted by the chosen key and is a permutation of the matching products. */
  lemma {:induction false} GetFilteredOrder(products: Table<Product>, categories: Table<Category>, tracked: set<Guid>, request: ProductFilterRequest)
    requires products.WellFormed() && request.categoryId.None?
    requires forall x :: x in products.GetAll() ==> Safe(categories, TrackedAtRun(categories, tracked, request), request, x)
    ensures AllConditions(categories, tracked, request).Ok?
    ensures Run(AtRun(categories, tracked, request), Query(products.GetAll(), AllConditions(categories, tracked, request).value)).Some?
    ensures var f := AsFilter(request);
      var rows := Run(AtRun(categories, tracked, request), Query(products.GetAll(), AllConditions(categories, tracked, request).value)).value;
      var o := Choose(SortArms, ByCreatedAt, f.sortBy, f.sortDirection);
      var sorted := SortBy(rows, KeyOf(o.field), o.ascending);
      SortedBy(sorted, KeyOf(o.field), o.ascending) && multiset(sorted) == multiset(rows)
  {
    FilteredRowsOfRequest(products, categories, tracked, request);
    var f := AsFilter(request);
    var rows := Run(AtRun(categories, tracked, request), Query(products.GetAll(), AllConditions(categories, tracked, request).value)).value;
    var o := Choose(SortArms, ByCreatedAt, f.sortBy, f.sortDirection);
    SortBySorted(rows, KeyOf(o.field), o.ascending);
  }

  /** A row on which the first condition throws makes the whole query throw. */
  lemma {:induction false} FirstConditionThrows(s: Schema<Row<Product>>, products: Table<Product>, cs: seq<Predicate>, x: Row<Product>)
    requires x in products.GetAll() && cs != [] && Eval(s, cs[0], x).None?
    ensures Run(s, Query(products.GetAll(), cs)).None?
  {
    var xs := products.GetAll();
    var i :| 0 <= i < |xs| && xs[i] == x;
    SelectFails(s, xs, cs);
  }

  /**
   * With a search term and no text field filled, one active product without
   * an Image whose ProductCode and ProductName miss the term makes
   * GetFilteredAsync throw NullReferenceException.
   */
  lemma {:induction false} NullImageSearchThrows(products: Table<Product>, categories: Table<Category>, tracked: set<Guid>,
                              request: ProductFilterRequest, x: Row<Product>)
    requires FieldConditions(request) == [] && request.categoryId.None?
    requires !IsNullOrWhiteSpace(request.common.searchTerm)
    requires x in products.GetAll() && x.data.image.None?
    requires !Text.Contains(Lower(x.data.productCode), Lower(request.common.searchTerm.value))
    requires !Text.Contains(Lower(x.data.productName), Lower(request.common.searchTerm.value))
    ensures FilteredListing(products, categories, tracked, request) == Err(NullReference)
  {
    var s := AtRun(categories, tracked, request);
    SearchComesFirst(categories, tracked, request);
    var cs := AllConditions(categories, tracked, request).value;
    SearchEvalOnProduct(categories, TrackedAtRun(categories, tracked, request), request.common.searchTerm.value, x);
    assert Eval(s, cs[0], x).None?;
    FirstConditionThrows(s, products, cs, x);
    assert Run(s, Query(products.GetAll(), cs)).None?;
  }

  /** With no text field filled, the search term's condition is the first the query applies. */
  lemma {:induction false} SearchComesFirst(categories: Table<Category>, tracked: set<Guid>, request: ProductFilterRequest)
    requires FieldConditions(request) == [] && request.categoryId.None?
    requires !IsNullOrWhiteSpace(request.common.searchTerm)
    ensures var s := AtRun(categories, tracked, request);
      && AllConditions(categories, tracked, request).Ok?
      && |AllConditions(categories, tracked, request).value| > 0
      && AllConditions(categories, tracked, request).value[0] == AnyContains(s.stringProps, Lower(request.common.searchTerm.value))
  {
    var s := AtRun(categories, tracked, request);
    var f := AsFilter(request);
    assert s.propType == ProductPropType && s.stringProps != [];
    PropertyConditionsOfRequest(s, request);
    var base := BaseConditions(s, f);
    assert Conditions(s, f) == Ok([] + base);
    assert [] + base == base;
    var search := AnyContains(s.stringProps, Lower(request.common.searchTerm.value));
    assert SearchConditions(s, f.searchTerm) == [search];
    assert AllConditions(categories, tracked, request) == Ok(base + ManualConditions(categories, request));
  }

  /**
   * A CategoryCode filter, with ProductCode and ProductName empty, throws
   * NullReferenceException as soon as one active product has no Category
   * loaded: one without a category, or whose category is not tracked.
   */
  lemma {:induction false} UnloadedCategoryThrows(products: Table<Product>, categories: Table<Category>, tracked: set<Guid>,
                               request: ProductFilterRequest, x: Row<Product>)
    requires CodeCondition(request.productCode).None? && NameCondition(request.productName).None? && request.categoryId.None?
    requires request.categoryCode.Some? && request.categoryCode.value != ""
    requires x in products.GetAll() && CategoryCodeOf(categories, TrackedAtRun(categories, tracked, request), x).None?
    ensures FilteredListing(products, categories, tracked, request) == Err(NullReference)
  {
    var s := AtRun(categories, tracked, request);
    PropertyConditionsOfRequest(s, request);
    var cs := AllConditions(categories, tracked, request).value;
    assert FieldConditions(request) == [NavCodeContains("Category", Lower(Lower(request.categoryCode.value)))];
    assert cs[0] == FieldConditions(request)[0];
    FirstConditionThrows(s, products, cs, x);
  }

  // ------------------------------------------------------------- GetPaged

  /** GetPagedAsync's search: ProductCode or ProductName, never Image. */
  predicate PagedHit(term: string, x: Row<Product>) {
    Text.Contains(Lower(x.data.productCode), Lower(term)) || Text.Contains(Lower(x.data.productName), Lower(term))
  }

  /** The active products the search term hits (all of them without a term), in table order. */
  function PagedRows(t: Table<Product>, searchTerm: Option<string>): seq<Row<Product>> {
    if IsNullOrWhiteSpace(searchTerm) then t.GetAll()
    else Filter(t.GetAll(), (x: Row<Product>) => PagedHit(searchTerm.value, x))
  }

  /** GetPagedAsync: the requested page of PagedRows. */
  function PagedListing(t: Table<Product>, request: PagedRequest): PagedResponse<Row<Product>> {
    Respond(PagedRows(t, request.searchTerm), request.pageNumber, request.pageSize)
  }

  /** GetPagedAsync keeps exactly the active products whose ProductCode or ProductName contains the term. */
  lemma {:induction false} PagedRowsMembers(t: Table<Product>, searchTerm: Option<string>)
    requires t.WellFormed()
    ensures forall x :: x in PagedRows(t, searchTerm) <==>
      x.id in t.rows && t.rows[x.id] == x && !x.isDeleted && (IsNullOrWhiteSpace(searchTerm) || PagedHit(searchTerm.value, x))
  {
    if !IsNullOrWhiteSpace(searchTerm) {
      FilterMembers(t.GetAll(), (x: Row<Product>) => PagedHit(searchTerm.value, x));
    }
    forall x ensures x in t.GetAll() <==> x.id in t.rows && t.rows[x.id] == x && !x.isDeleted {
      GetAllMembers(t, x);
    }
  }

  /** GetPagedAsync counts all the rows PagedRows keeps and returns the requested window of them in table order. */
  lemma {:induction false} GetPagedSpec(t: Table<Product>, request: PagedRequest)
    ensures var rows := PagedRows(t, request.searchTerm);
      var r := PagedListing(t, request);
      && r.totalRecords == |rows|
      && r.pageNumber == ClampPageNumber(request.pageNumber) && r.pageSize == ClampPageSize(request.pageSize)
      && r.totalPages == TotalPages(|rows|, r.pageSize)
      && |r.data| == PageLength(|rows|, PageStart(r.pageNumber, r.pageSize), r.pageSize)
      && IsWindow(r.data, rows, PageStart(r.pageNumber, r.pageSize))
  {
    RespondSpec(PagedRows(t, request.searchTerm), request.pageNumber, request.pageSize);
  }

  /**
   * Unlike the filtered listing's search, GetPagedAsync never reads Image:
   * where the filtered search does not throw, it keeps at least the rows
   * GetPagedAsync keeps.
   */
  lemma {:induction false} PagedHitIsSearchHit(term: string, x: Row<Product>)
    ensures PagedHit(term, x) ==> SearchHit(term, x)
    ensures SearchHit(term, x) && x.data.image.None? ==> PagedHit(term, x)
  {
  }

  // ------------------------------------------------------------------ CRUD

  /** CreateProductRequest and UpdateProductRequest. */
  datatype ProductRequest = ProductRequest(productCode: string, productName: string, image: Option<string>, categoryId: Option<Guid>)

  /** The request mapped onto a product: the mapping ignores CategoryId, so the product keeps `categoryId`. */
  function Mapped(request: ProductRequest, categoryId: Option<Guid>): Product {
    Product(request.productCode, request.productName, request.image, categoryId)
  }

  /**
   * The category check: a CategoryId that differs from the current one must
   * name a category, looked up by key, soft-deleted ones included.
   */
  predicate CategoryRejected(categories: Table<Category>, current: Option<Guid>, requested: Option<Guid>) {
    requested.Some? && current != requested && categories.GetById(requested.value).None?
  }

  /** The unique index on ProductCode refuses storing `p` under `id` exactly when another row, deleted or not, has its code. */
  lemma {:induction false} ClashesIffCodeHeld(t: Table<Product>, id: Guid, p: Product)
    ensures t.Clashes(ProductKeys, id, p) <==> exists other :: other in t.rows && other != id && t.rows[other].data.productCode == p.productCode
  {
    if exists other :: other in t.rows && other != id && t.rows[other].data.productCode == p.productCode {
      var other :| other in t.rows && other != id && t.rows[other].data.productCode == p.productCode;
      assert p.productCode in ProductKeys(t.rows[other].data) * ProductKeys(p);
    }
  }

  /** CreateAsync. The new product never has a category: the mapping drops CategoryId after the service checked it. */
  method Create(repo: Repository<Product, string>, categories: Table<Category>, request: ProductRequest, now: Time)
    returns (r: Result<Row<Product>>)
    requires repo.Valid() && repo.keysOf == ProductKeys
    modifies repo
    ensures repo.Valid()
    ensures ExistsByProductCode(old(repo.table), request.productCode) ==> r == Err(InvalidOperation("ProductCodeExists"))
    ensures (!ExistsByProductCode(old(repo.table), request.productCode) && CategoryRejected(categories, None, request.categoryId))
            ==> r == Err(KeyNotFound("CategoryNotFound"))
    ensures r.Err? ==> repo.table == old(repo.table)
    ensures r.Ok? ==> && r.value.id !in old(repo.table.rows) && r.value == Row(r.value.id, now, None, false, Mapped(request, None))
                      && repo.table == old(repo.table).Inserted(r.value)
    ensures (!ExistsByProductCode(old(repo.table), request.productCode) && !CategoryRejected(categories, None, request.categoryId)) ==>
      && (r.Err? <==> r == Err(DbUpdateConflict))
      && (r.Err? <==> exists other :: other in old(repo.table.rows) && old(repo.table.rows[other].data.productCode) == request.productCode)
  {
    if ExistsByProductCode(repo.table, request.productCode) {
      return Err(InvalidOperation("ProductCodeExists"));
    }
    if request.categoryId.Some? {
      var category := categories.GetById(request.categoryId.value);
      if category.None? {
        return Err(KeyNotFound("CategoryNotFound"));
      }
    }
    ghost var before := repo.table;
    var row, ok := repo.AddAsync(Mapped(request, None), now);
    ClashesIffCodeHeld(before, row.id, Mapped(request, None));
    if !ok {
      return Err(DbUpdateConflict);
    }
    r := Ok(row);
  }

  /**
   * UpdateAsync: ProductCode, ProductName and Image are replaced and UpdatedAt
   * stamped; CategoryId is checked but the product keeps its old one. A
   * soft-deleted product can be updated and stays deleted.
   */
  method Update(repo: Repository<Product, string>, categories: Table<Category>, id: Guid, request: ProductRequest, now: Time)
    returns (r: Result<Row<Product>>)
    requires repo.Valid() && repo.keysOf == ProductKeys
    modifies repo
    ensures repo.Valid()
    ensures id !in old(repo.table.rows) ==> r == Err(KeyNotFound("ProductNotFound"))
    ensures (id in old(repo.table.rows) && old(repo.table.rows[id].data.productCode) != request.productCode
             && ExistsByProductCode(old(repo.table), request.productCode)) ==> r == Err(InvalidOperation("ProductCodeExists"))
    ensures (id in old(repo.table.rows)
             && !(old(repo.table.rows[id].data.productCode) != request.productCode && ExistsByProductCode(old(repo.table), request.productCode))
             && CategoryRejected(categories, old(repo.table.rows[id].data.categoryId), request.categoryId))
            ==> r == Err(KeyNotFound("CategoryNotFound"))
    ensures r.Err? ==> repo.table == old(repo.table)
    ensures r.Ok? ==> && id in old(repo.table.rows)
                      && r.value == old(repo.table.rows[id]).(updatedAt := Some(now), data := Mapped(request, old(repo.table.rows[id].data.categoryId)))
                      && repo.table == old(repo.table).Replaced(r.value)
    ensures (id in old(repo.table.rows)
             && !(old(repo.table.rows[id].data.productCode) != request.productCode && ExistsByProductCode(old(repo.table), request.productCode))
             && !CategoryRejected(categories, old(repo.table.rows[id].data.categoryId), request.categoryId))
            ==> (r.Ok? <==> !old(repo.table).Clashes(ProductKeys, id, Mapped(request, old(repo.table.rows[id].data.categoryId))))
  {
    var found := repo.table.GetById(id);
    if found.None? {
      return Err(KeyNotFound("ProductNotFound"));
    }
    var product := found.value;
    if product.data.productCode != request.productCode && ExistsByProductCode(repo.table, request.productCode) {
      return Err(InvalidOperation("ProductCodeExists"));
    }
    if request.categoryId.Some? && product.data.categoryId != request.categoryId {
      var category := categories.GetById(request.categoryId.value);
      if category.None? {
        return Err(KeyNotFound("CategoryNotFound"));
      }
    }
    var updated, ok := repo.UpdateAsync(product.(data := Mapped(request, product.data.categoryId)), now);
    if !ok {
      return Err(DbUpdateConflict);
    }
    r := Ok(updated);
  }

  /** Keeping its own code never makes an update clash: the unique index already holds the code for this row. */
  lemma {:induction false} SameCodeNeverClashes(t: Table<Product>, id: Guid, p: Product)
    requires t.IsUnique(ProductKeys) && id in t.rows && t.rows[id].data.productCode == p.productCode
    ensures !t.Clashes(ProductKeys, id, p)
  {
    ClashesIffCodeHeld(t, id, p);
    forall other | other in t.rows && other != id ensures t.rows[other].data.productCode != p.productCode {
      assert t.rows[id].data.productCode in ProductKeys(t.rows[id].data);
    }
  }

  /** DeleteAsync: the product is soft-deleted; an unknown id throws. */
  method Delete(repo: Repository<Product, string>, id: Guid, now: Time) returns (r: Result<()>)
    requires repo.Valid()
    modifies repo
    ensures repo.Valid()
    ensures id !in old(repo.table.rows) ==> r == Err(KeyNotFound("ProductNotFound")) && repo.table == old(repo.table)
    ensures id in old(repo.table.rows) ==> r == Ok(()) && repo.table == old(repo.table).SoftDeleted(id, now)
  {
    var found := repo.table.GetById(id);
    if found.None? {
      return Err(KeyNotFound("ProductNotFound"));
    }
    repo.DeleteAsync(id, now);
    r := Ok(());
  }
}
