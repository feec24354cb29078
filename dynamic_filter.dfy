/**
 * DynamicFilterHelper: turns the properties of a filter request into Where
 * conditions on an entity query.
 *
 * Each property declared by the concrete request class and holding a value
 * becomes at most one condition, chosen by the property's name and the
 * value's runtime type; a condition the entity's property types cannot
 * support makes expression building throw. The inherited SearchTerm,
 * IsDeleted, CreatedFrom and CreatedTo then add the base conditions.
 */
module DynamicFilter {
  import opened Wrappers
  import opened Entities
  import opened Text
  import opened Seqs
  import opened Queries

  /** The runtime value of a filter property (`GetValue`), null included. */
  datatype FilterValue = FNull | FString(s: string) | FGuid(g: Guid) | FBool(b: bool) | FDate(t: Time)
                       | FInt(i: int) | FLong(l: int) | FDecimal(d: real) | FOther

  datatype FilterProperty = FilterProperty(name: string, value: FilterValue)

  /** The class that declares a public property of a filter request. */
  datatype Declarer = PagedRequestType | FilterRequestType | RequestSubclass

  /**
   * A filter request: the fields PagedRequest and FilterRequest declare, and
   * the properties its concrete subclass declares, in declaration order.
   */
  datatype FilterRequest = FilterRequest(
    pageNumber: int, pageSize: int, searchTerm: Option<string>,
    sortBy: Option<string>, sortDirection: Option<string>,
    isDeleted: Option<bool>, createdFrom: Option<Time>, createdTo: Option<Time>,
    declared: seq<FilterProperty>)

  function StringValue(v: Option<string>): FilterValue { if v.Some? then FString(v.value) else FNull }

  function BoolValue(v: Option<bool>): FilterValue { if v.Some? then FBool(v.value) else FNull }

  function DateValue(v: Option<Time>): FilterValue { if v.Some? then FDate(v.value) else FNull }

  function GuidValue(v: Option<Guid>): FilterValue { if v.Some? then FGuid(v.value) else FNull }

  /** filterType.GetProperties(): the subclass's own properties, then the inherited ones. */
  function AllProperties(f: FilterRequest): seq<(Declarer, FilterProperty)> {
    Map(f.declared, (p: FilterProperty) => (RequestSubclass, p)) + [
      (FilterRequestType, FilterProperty("SortBy", StringValue(f.sortBy))),
      (FilterRequestType, FilterProperty("SortDirection", StringValue(f.sortDirection))),
      (FilterRequestType, FilterProperty("IsDeleted", BoolValue(f.isDeleted))),
      (FilterRequestType, FilterProperty("CreatedFrom", DateValue(f.createdFrom))),
      (FilterRequestType, FilterProperty("CreatedTo", DateValue(f.createdTo))),
      (PagedRequestType, FilterProperty("PageNumber", FInt(f.pageNumber))),
      (PagedRequestType, FilterProperty("PageSize", FInt(f.pageSize))),
      (PagedRequestType, FilterProperty("SearchTerm", StringValue(f.searchTerm)))]
  }

  predicate HasValue(p: FilterProperty) { p.value != FNull }

  /** The properties the loop visits: those the subclass declares that are not null. */
  function FilterProperties(f: FilterRequest): seq<FilterProperty> {
    Filter(f.declared, HasValue)
  }

  predicate Visited(dp: (Declarer, FilterProperty)) {
    dp.0 != FilterRequestType && dp.0 != PagedRequestType && HasValue(dp.1)
  }

  /**
   * Reflection's view (lines 22-25): keeping the properties that FilterRequest and
   * PagedRequest do not declare and that hold a value gives FilterProperties, so
   * paging, sorting and the inherited filters never reach the per-property loop.
   */
  lemma {:induction false} VisitedAreDeclared(f: FilterRequest)
    ensures Map(Filter(AllProperties(f), Visited), (dp: (Declarer, FilterProperty)) => dp.1) == FilterProperties(f)
  {
    var own := Map(f.declared, (p: FilterProperty) => (RequestSubclass, p));
    var inherited := AllProperties(f)[|own|..];
    assert AllProperties(f) == own + inherited;
    FilterInheritedEmpty(inherited);
    FilterAppend(own, inherited, Visited);
    assert Filter(own, Visited) + [] == Filter(own, Visited);
    VisitedOwn(f.declared);
  }

  lemma {:induction false} FilterInheritedEmpty(xs: seq<(Declarer, FilterProperty)>)
    requires forall i :: 0 <= i < |xs| ==> xs[i].0 != RequestSubclass
    ensures Filter(xs, Visited) == []
  {
    if xs != [] {
      FilterInheritedEmpty(xs[1..]);
    }
  }

  lemma {:induction false} FilterAppend<T>(xs: seq<T>, ys: seq<T>, p: T -> bool)
    ensures Filter(xs + ys, p) == Filter(xs, p) + Filter(ys, p)
  {
    if xs == [] {
      assert [] + ys == ys;
    } else {
      assert (xs + ys)[1..] == xs[1..] + ys;
      FilterAppend(xs[1..], ys, p);
    }
  }

  lemma {:induction false} VisitedOwn(ps: seq<FilterProperty>)
    ensures Map(Filter(Map(ps, (p: FilterProperty) => (RequestSubclass, p)), Visited), (dp: (Declarer, FilterProperty)) => dp.1)
         == Filter(ps, HasValue)
  {
    if ps != [] {
      VisitedOwn(ps[1..]);
      assert Map(ps, (p: FilterProperty) => (RequestSubclass, p))[1..] == Map(ps[1..], (p: FilterProperty) => (RequestSubclass, p));
    }
  }

  /** Changing the page, the page size or the sort never changes which conditions are built. */
  lemma {:induction false} PagingAndSortingDoNotFilter<T>(s: Schema<T>, f: FilterRequest, pageNumber: int, pageSize: int,
                                       sortBy: Option<string>, sortDirection: Option<string>)
    ensures Conditions(s, f.(pageNumber := pageNumber, pageSize := pageSize, sortBy := sortBy, sortDirection := sortDirection))
         == Conditions(s, f)
  {
  }

  function Typed(wellTyped: bool, p: Predicate): Result<Option<Predicate>> {
    if wellTyped then Ok(Some(p)) else Err(MalformedExpression)
  }

  /** The condition for a property the entity declares with type `t`, by the value's runtime type. */
  function DirectCondition(name: string, t: PropType, v: FilterValue): Result<Option<Predicate>> {
    match v
    case FString(str) =>
      if str == "" then Ok(None) else Typed(t == TString, Contains(name, Lower(str)))
    case FGuid(g) => Typed(t == TGuid, Equals(name, VGuid(g)))
    case FBool(b) => Typed(t == TBool, Equals(name, VBool(b)))
    case FDate(d) =>
      if Text.Contains(name, "From") then Typed(t == TDateTime, AtLeast(name, d))
      else if Text.Contains(name, "To") then Typed(t == TDateTime, AtMost(name, d))
      else Ok(None)
    case FInt(i) => Typed(t == TInt, Equals(name, VInt(i)))
    case FLong(l) => Typed(t == TLong, Equals(name, VLong(l)))
    case FDecimal(d) => Typed(t == TDecimal, Equals(name, VDecimal(d)))
    case FOther => Ok(None)
    case FNull => Ok(None)
  }

  /** The navigation a "...Code" property names: the name with every "Code" removed. */
  function NavigationName(name: string): string { Replace(name, "Code", "") }

  /** The condition one filter property contributes: none, one, or an expression-building error. */
  function FieldCondition<T>(s: Schema<T>, p: FilterProperty): Result<Option<Predicate>> {
    if p.value.FNull? then Ok(None)
    else if EndsWith(p.name, "Code") && p.value.FString? && p.value.s != ""
            && s.propType(NavigationName(p.name)) == Some(TReference(true)) then
      Ok(Some(NavCodeContains(NavigationName(p.name), Lower(Lower(p.value.s)))))
    else match s.propType(p.name)
      case None => Ok(None)
      case Some(t) => DirectCondition(p.name, t, p.value)
  }

  /**
   * The per-property policy: an empty string and a property the entity does
   * not declare add nothing, a white-space-only string still filters, a
   * DateTime named with neither "From" nor "To" adds nothing, and a navigation
   * code filter replaces the direct-property condition.
   */
  lemma {:induction false} FieldConditionPolicy<T>(s: Schema<T>, p: FilterProperty)
    ensures p.value == FString("") ==> FieldCondition(s, p) == Ok(None)
    ensures s.propType(p.name).None? && !(EndsWith(p.name, "Code") && p.value.FString?)
      ==> FieldCondition(s, p) == Ok(None)
    ensures p.value.FString? && p.value.s != "" && s.propType(p.name) == Some(TString) && !EndsWith(p.name, "Code")
      ==> FieldCondition(s, p) == Ok(Some(Contains(p.name, Lower(p.value.s))))
    ensures p.value.FDate? && !Text.Contains(p.name, "From") && !Text.Contains(p.name, "To")
      ==> FieldCondition(s, p) == Ok(None)
    ensures p.value.FDate? && Text.Contains(p.name, "From") && s.propType(p.name) == Some(TDateTime)
      ==> FieldCondition(s, p) == Ok(Some(AtLeast(p.name, p.value.t)))
    ensures p.value.FGuid? && s.propType(p.name) == Some(TGuid)
      ==> FieldCondition(s, p) == Ok(Some(Equals(p.name, VGuid(p.value.g))))
    ensures p.value.FString? && p.value.s != "" && EndsWith(p.name, "Code")
      && s.propType(NavigationName(p.name)) == Some(TReference(true))
      ==> FieldCondition(s, p) == Ok(Some(NavCodeContains(NavigationName(p.name), Lower(Lower(p.value.s)))))
  {
  }

  /** The conditions of the visited properties, in order; the first error wins. */
  function PropertyConditions<T>(s: Schema<T>, props: seq<FilterProperty>): Result<seq<Predicate>>
    decreases |props|
  {
    if props == [] then Ok([])
    else match PropertyConditions(s, props[..|props| - 1])
      case Err(e) => Err(e)
      case Ok(cs) =>
        match FieldCondition(s, props[|props| - 1])
        case Err(e) => Err(e)
        case Ok(None) => Ok(cs)
        case Ok(Some(c)) => Ok(cs + [c])
  }

  /** ApplySearchTerm's condition: absent when the entity has no string property. */
  function SearchConditions<T>(s: Schema<T>, searchTerm: Option<string>): seq<Predicate> {
    if IsNullOrWhiteSpace(searchTerm) || s.stringProps == [] then []
    else [AnyContains(s.stringProps, Lower(searchTerm.value))]
  }

  /** The conditions of the inherited SearchTerm, IsDeleted, CreatedFrom and CreatedTo. */
  function BaseConditions<T>(s: Schema<T>, f: FilterRequest): seq<Predicate> {
    SearchConditions(s, f.searchTerm) + ColumnConditions(f)
  }

  /** The conditions of IsDeleted, CreatedFrom and CreatedTo. */
  function ColumnConditions(f: FilterRequest): seq<Predicate> {
    (if f.isDeleted.Some? then [Equals("IsDeleted", VBool(f.isDeleted.value))] else [])
    + (if f.createdFrom.Some? then [AtLeast("CreatedAt", f.createdFrom.value)] else [])
    + (if f.createdTo.Some? then [AtMost("CreatedAt", f.createdTo.value)] else [])
  }

  /** Every condition ApplyDynamicFilters adds, or the error that building one raises. */
  function Conditions<T>(s: Schema<T>, f: FilterRequest): Result<seq<Predicate>> {
    match PropertyConditions(s, FilterProperties(f))
    case Err(e) => Err(e)
    case Ok(cs) => Ok(cs + BaseConditions(s, f))
  }

  lemma {:induction false} PropertyConditionsErrPersists<T>(s: Schema<T>, props: seq<FilterProperty>, k: nat)
    requires k <= |props| && PropertyConditions(s, props[..k]).Err?
    ensures PropertyConditions(s, props).Err?
    decreases |props|
  {
    if k < |props| {
      var front := props[..|props| - 1];
      assert front[..k] == props[..k];
      PropertyConditionsErrPersists(s, front, k);
    } else {
      assert props[..k] == props;
    }
  }

  /** One more property: its condition, if any, goes after the others; an error stays an error. */
  lemma {:induction false} PropertyConditionsSnoc<T>(s: Schema<T>, props: seq<FilterProperty>, p: FilterProperty)
    ensures PropertyConditions(s, props + [p]) ==
      match PropertyConditions(s, props)
      case Err(e) => Err(e)
      case Ok(cs) =>
        match FieldCondition(s, p)
        case Err(e) => Err(e)
        case Ok(None) => Ok(cs)
        case Ok(Some(c)) => Ok(cs + [c])
  {
    assert (props + [p])[..|props|] == props;
  }

  function OptSeq(c: Option<Predicate>): seq<Predicate> {
    if c.Some? then [c.value] else []
  }

  /** The conditions that the properties contribute, in order. */
  function Present(cs: seq<Option<Predicate>>): seq<Predicate>
    decreases |cs|
  {
    if cs == [] then [] else OptSeq(cs[0]) + Present(cs[1..])
  }

  lemma {:induction false} PresentSnoc(cs: seq<Option<Predicate>>, c: Option<Predicate>)
    ensures Present(cs + [c]) == Present(cs) + OptSeq(c)
    decreases |cs|
  {
    if cs == [] {
      assert [] + [c] == [c] && [c][1..] == [];
    } else {
      assert (cs + [c])[1..] == cs[1..] + [c];
      PresentSnoc(cs[1..], c);
    }
  }

  lemma {:induction false} PresentCons(c: Option<Predicate>, cs: seq<Option<Predicate>>)
    ensures Present([c] + cs) == OptSeq(c) + Present(cs)
  {
    assert ([c] + cs)[1..] == cs;
  }

  /** Two properties contribute their conditions in order. */
  lemma {:induction false} PresentPair(a: Option<Predicate>, b: Option<Predicate>)
    ensures Present([a, b]) == OptSeq(a) + OptSeq(b)
  {
    assert [a, b] == [a] + ([b] + []);
    PresentCons(b, []);
    PresentCons(a, [b]);
  }

  /** When no property's condition throws, the loop collects the conditions they contribute, in order. */
  lemma {:induction false} PropertyConditionsOk<T>(s: Schema<T>, props: seq<FilterProperty>, cs: seq<Option<Predicate>>)
    requires |cs| == |props|
    requires forall i :: 0 <= i < |props| ==> FieldCondition(s, props[i]) == Ok(cs[i])
    ensures PropertyConditions(s, props) == Ok(Present(cs))
    decreases |props|
  {
    if props != [] {
      var n := |props| - 1;
      PropertyConditionsOk(s, props[..n], cs[..n]);
      assert FieldCondition(s, props[n]) == Ok(cs[n]);
      assert props == props[..n] + [props[n]];
      PropertyConditionsSnoc(s, props[..n], props[n]);
      assert cs == cs[..n] + [cs[n]];
      PresentSnoc(cs[..n], cs[n]);
      if cs[n].None? {
        assert Present(cs[..n]) + [] == Present(cs[..n]);
      }
    }
  }

  /** Skipping the null-valued properties changes nothing: a null value adds no condition. */
  lemma {:induction false} PropertyConditionsSkipNull<T>(s: Schema<T>, props: seq<FilterProperty>)
    ensures PropertyConditions(s, Filter(props, HasValue)) == PropertyConditions(s, props)
    decreases |props|
  {
    if props != [] {
      var front := props[..|props| - 1];
      var last := props[|props| - 1];
      assert props == front + [last];
      FilterAppend(front, [last], HasValue);
      PropertyConditionsSkipNull(s, front);
      PropertyConditionsSnoc(s, front, last);
      if HasValue(last) {
        assert Filter([last], HasValue) == [last];
        PropertyConditionsSnoc(s, Filter(front, HasValue), last);
      } else {
        assert Filter([last], HasValue) == [];
        assert Filter(front, HasValue) + [] == Filter(front, HasValue);
        assert FieldCondition(s, last) == Ok(None);
      }
    }
  }

  /** The conditions of a request whose visited properties do not throw: the present ones, in declaration order. */
  lemma {:induction false} DeclaredConditions<T>(s: Schema<T>, f: FilterRequest, cs: seq<Option<Predicate>>)
    requires |cs| == |f.declared|
    requires forall i :: 0 <= i < |f.declared| ==> FieldCondition(s, f.declared[i]) == Ok(cs[i])
    ensures PropertyConditions(s, FilterProperties(f)) == Ok(Present(cs))
  {
    PropertyConditionsSkipNull(s, f.declared);
    PropertyConditionsOk(s, f.declared, cs);
  }

  lemma {:induction false} PropertyConditionsErrorKind<T>(s: Schema<T>, props: seq<FilterProperty>)
    ensures PropertyConditions(s, props).Err? ==> PropertyConditions(s, props).error == MalformedExpression
    decreases |props|
  {
    if props != [] {
      PropertyConditionsErrorKind(s, props[..|props| - 1]);
    }
  }

  /** ApplySearchTerm: one OrElse chain of `e.p.ToLower().Contains(term.ToLower())` over the string properties. */
  method ApplySearchTerm<T>(s: Schema<T>, query: Query<T>, searchTerm: string) returns (r: Query<T>)
    ensures s.stringProps == [] ==> r == query
    ensures s.stringProps != [] ==> Equivalent(s, r, Where(query, AnyContains(s.stringProps, Lower(searchTerm))))
  {
    var props := s.stringProps;
    if props == [] {
      return query;
    }
    var needle := Lower(searchTerm);
    var combined: Option<Predicate> := None;
    var i := 0;
    while i < |props|
      invariant 0 <= i <= |props|
      invariant combined.None? <==> i == 0
      invariant combined.Some? ==> forall e :: e in query.source ==>
        Eval(s, combined.value, e) == SearchEval(s, props[..i], needle, e)
    {
      var condition := Contains(props[i], needle);
      forall e | e in query.source
        ensures SearchEval(s, props[..i + 1], needle, e) ==
          match SearchEval(s, props[..i], needle, e)
          case None => None
          case Some(true) => Some(true)
          case Some(false) => Eval(s, condition, e)
      {
        assert props[..i + 1] == props[..i] + [props[i]];
        SearchEvalSnoc(s, props[..i], props[i], needle, e);
      }
      if combined.None? {
        combined := Some(condition);
      } else {
        combined := Some(Or(combined.value, condition));
      }
      i := i + 1;
    }
    assert props[..|props|] == props;
    r := Where(query, combined.value);
    forall e | e in query.source ensures EvalAll(s, r.conditions, e) == EvalAll(s, query.conditions + [AnyContains(props, needle)], e) {
      EvalAllAppend(s, query.conditions, [combined.value], e);
      EvalAllAppend(s, query.conditions, [AnyContains(props, needle)], e);
    }
  }

  /** The loop over the visited properties (lines 27-117): one Where per condition, or the building error. */
  method ApplyPropertyFilters<T>(s: Schema<T>, query: Query<T>, props: seq<FilterProperty>) returns (r: Result<Query<T>>)
    ensures r.Err? <==> PropertyConditions(s, props).Err?
    ensures r.Err? ==> r.error == MalformedExpression
    ensures r.Ok? ==> r.value == Query(query.source, query.conditions + PropertyConditions(s, props).value)
  {
    PropertyConditionsErrorKind(s, props);
    var q := query;
    var i := 0;
    while i < |props|
      invariant 0 <= i <= |props|
      invariant PropertyConditions(s, props[..i]).Ok?
      invariant q == Query(query.source, query.conditions + PropertyConditions(s, props[..i]).value)
    {
      assert props[..i + 1] == props[..i] + [props[i]];
      PropertyConditionsSnoc(s, props[..i], props[i]);
      ghost var done := PropertyConditions(s, props[..i]).value;
      match FieldCondition(s, props[i]) {
        case Err(e) =>
          PropertyConditionsErrPersists(s, props, i + 1);
          return Err(e);
        case Ok(None) =>
        case Ok(Some(c)) =>
          assert (query.conditions + done) + [c] == query.conditions + (done + [c]);
          q := Where(q, c);
      }
      i := i + 1;
    }
    assert props[..|props|] == props;
    r := Ok(q);
  }

  /** The inherited filters (lines 119-153): search term, then the column filters. */
  method ApplyBaseFilters<T>(s: Schema<T>, query: Query<T>, filter: FilterRequest) returns (r: Query<T>)
    ensures Equivalent(s, r, Query(query.source, query.conditions + BaseConditions(s, filter)))
  {
    var q := query;
    ghost var spec := query;
    if !IsNullOrWhiteSpace(filter.searchTerm) {
      q := ApplySearchTerm(s, q, filter.searchTerm.value);
      if s.stringProps != [] {
        spec := Where(spec, AnyContains(s.stringProps, Lower(filter.searchTerm.value)));
      } else {
        EquivalentRefl(s, q);
      }
    } else {
      EquivalentRefl(s, q);
    }
    assert spec.conditions == query.conditions + SearchConditions(s, filter.searchTerm);
    r := ApplyColumnFilters(q, filter);
    EquivalentAppend(s, q, spec, ColumnConditions(filter));
    assert spec.conditions + ColumnConditions(filter) == query.conditions + BaseConditions(s, filter);
  }

  /** IsDeleted equality and the inclusive CreatedAt bounds, each a Where when its field is set. */
  method ApplyColumnFilters<T>(query: Query<T>, filter: FilterRequest) returns (r: Query<T>)
    ensures r == Query(query.source, query.conditions + ColumnConditions(filter))
  {
    r := query;
    if filter.isDeleted.Some? {
      r := Where(r, Equals("IsDeleted", VBool(filter.isDeleted.value)));
    }
    if filter.createdFrom.Some? {
      r := Where(r, AtLeast("CreatedAt", filter.createdFrom.value));
    }
    if filter.createdTo.Some? {
      r := Where(r, AtMost("CreatedAt", filter.createdTo.value));
    }
    assert query.conditions + ColumnConditions(filter) == r.conditions;
  }

  /** The request's conditions are its property conditions followed by its base conditions, and fail exactly when the former do. */
  lemma {:induction false} ConditionsSplit<T>(s: Schema<T>, query: Query<T>, filter: FilterRequest)
    ensures Conditions(s, filter).Err? <==> PropertyConditions(s, FilterProperties(filter)).Err?
    ensures Conditions(s, filter).Err? ==> Conditions(s, filter).error == PropertyConditions(s, FilterProperties(filter)).error
    ensures Conditions(s, filter).Ok? ==>
      query.conditions + Conditions(s, filter).value
      == (query.conditions + PropertyConditions(s, FilterProperties(filter)).value) + BaseConditions(s, filter)
  {
    if Conditions(s, filter).Ok? {
      var cs := PropertyConditions(s, FilterProperties(filter)).value;
      assert Conditions(s, filter).value == cs + BaseConditions(s, filter);
      assert query.conditions + (cs + BaseConditions(s, filter)) == (query.conditions + cs) + BaseConditions(s, filter);
    }
  }

  /** ApplyDynamicFilters: the query with every condition of the request added, or the building error. */
  method ApplyDynamicFilters<T>(s: Schema<T>, query: Query<T>, filter: FilterRequest) returns (r: Result<Query<T>>)
    ensures r.Err? <==> Conditions(s, filter).Err?
    ensures r.Err? ==> r.error == MalformedExpression
    ensures r.Ok? ==> Equivalent(s, r.value, Query(query.source, query.conditions + Conditions(s, filter).value))
  {
    ConditionsSplit(s, query, filter);
    var filtered := ApplyPropertyFilters(s, query, FilterProperties(filter));
    if filtered.Err? {
      return filtered;
    }
    var q := ApplyBaseFilters(s, filtered.value, filter);
    r := Ok(q);
  }

  /**
   * The filtered list, when building and running it do not throw: exactly the
   * source rows on which every generated condition holds, in source order.
   */
  lemma {:induction false} FilteredRows<T>(s: Schema<T>, xs: seq<T>, f: FilterRequest)
    requires Conditions(s, f).Ok? && Run(s, Query(xs, Conditions(s, f).value)).Some?
    ensures var cs := Conditions(s, f).value;
      var ys := Run(s, Query(xs, cs)).value;
      IsSubsequence(ys, xs) &&
      forall x :: x in ys <==> x in xs && forall i :: 0 <= i < |cs| ==> Eval(s, cs[i], x) == Some(true)
  {
    var cs := Conditions(s, f).value;
    SelectIsSubsequence(s, xs, cs);
    SelectMembers(s, xs, cs);
    forall x | x in xs
      ensures EvalAll(s, cs, x) == Some(true) <==> forall i :: 0 <= i < |cs| ==> Eval(s, cs[i], x) == Some(true)
    {
      SelectFails(s, xs, cs);
      EvalAllMeaning(s, cs, x);
    }
  }

  /** A property appended to the list keeps every condition the shorter list had. */
  lemma {:induction false} SnocKeepsConditions<T>(s: Schema<T>, props: seq<FilterProperty>, p: FilterProperty)
    requires PropertyConditions(s, props + [p]).Ok?
    ensures PropertyConditions(s, props).Ok?
    ensures forall c :: c in PropertyConditions(s, props).value ==> c in PropertyConditions(s, props + [p]).value
  {
    PropertyConditionsSnoc(s, props, p);
  }

  /** Populating one more declared property keeps every condition the request had. */
  lemma {:induction false} MoreFieldsKeepConditions<T>(s: Schema<T>, f: FilterRequest, p: FilterProperty)
    requires Conditions(s, f.(declared := f.declared + [p])).Ok?
    ensures Conditions(s, f).Ok?
    ensures forall c :: c in Conditions(s, f).value ==> c in Conditions(s, f.(declared := f.declared + [p])).value
  {
    var g := f.(declared := f.declared + [p]);
    var props := FilterProperties(f);
    FilterAppend(f.declared, [p], HasValue);
    assert BaseConditions(s, g) == BaseConditions(s, f);
    if HasValue(p) {
      assert Filter([p], HasValue) == [p];
      assert FilterProperties(g) == props + [p];
      SnocKeepsConditions(s, props, p);
    } else {
      assert Filter([p], HasValue) == [];
      assert FilterProperties(g) == props + [];
      assert props + [] == props;
    }
  }

  /**
   * ... and so never enlarges the result: every row the wider request keeps,
   * the narrower one keeps.
   */
  lemma {:induction false} MoreFieldsNarrow<T>(s: Schema<T>, xs: seq<T>, f: FilterRequest, p: FilterProperty)
    requires Conditions(s, f.(declared := f.declared + [p])).Ok?
    requires Run(s, Query(xs, Conditions(s, f.(declared := f.declared + [p])).value)).Some?
    ensures Conditions(s, f).Ok?
    ensures forall x :: x in Run(s, Query(xs, Conditions(s, f.(declared := f.declared + [p])).value)).value
                    ==> x in xs && (Run(s, Query(xs, Conditions(s, f).value)).Some? ==> x in Run(s, Query(xs, Conditions(s, f).value)).value)
  {
    MoreFieldsKeepConditions(s, f, p);
    SelectStronger(s, xs, Conditions(s, f).value, Conditions(s, f.(declared := f.declared + [p])).value);
  }

  /**
   * A condition that rejects every source row empties the result: rows the
   * repository already filtered on IsDeleted = false and a request asking for
   * IsDeleted = true give no records.
   */
  lemma {:induction false} DeletedOnlyOnActiveRowsIsEmpty<T>(s: Schema<T>, xs: seq<T>, f: FilterRequest)
    requires forall x :: x in xs ==> s.get(x, "IsDeleted") == VBool(false)
    requires f.isDeleted == Some(true) && Conditions(s, f).Ok?
    requires Run(s, Query(xs, Conditions(s, f).value)).Some?
    ensures Run(s, Query(xs, Conditions(s, f).value)).value == []
  {
    var cs := Conditions(s, f).value;
    var c := Equals("IsDeleted", VBool(true));
    assert c in cs by {
      var base := BaseConditions(s, f);
      assert cs == PropertyConditions(s, FilterProperties(f)).value + base;
      assert c in base;
    }
    var ys := Run(s, Query(xs, cs)).value;
    var i :| 0 <= i < |cs| && cs[i] == c;
    assert forall x :: x in xs ==> Eval(s, cs[i], x) == Some(false);
    assert ys == Select(s, xs, cs).value;
    SelectMembers(s, xs, cs);
    if ys != [] {
      assert ys[0] in ys;
      assert ys[0] in Select(s, xs, cs).value;
      assert EvalAll(s, cs, ys[0]) == Some(true);
      EvalAllMeaning(s, cs, ys[0]);
      assert false;
    }
  }

  /**
   * The inherited filters as plain conditions on an entity row: the search
   * hit (itself a plain condition the caller works out from the row's
   * strings), IsDeleted equality and the inclusive CreatedAt bounds.
   */
  predicate BaseMatches<D>(f: FilterRequest, x: Row<D>, searchHit: bool) {
    && (IsNullOrWhiteSpace(f.searchTerm) || searchHit)
    && (f.isDeleted.Some? ==> x.isDeleted == f.isDeleted.value)
    && (f.createdFrom.Some? ==> x.createdAt >= f.createdFrom.value)
    && (f.createdTo.Some? ==> x.createdAt <= f.createdTo.value)
  }

  /** On a row whose columns read as stored and whose search does not throw, the base conditions decide BaseMatches. */
  lemma {:induction false} BaseConditionsMeaning<D>(s: Schema<Row<D>>, f: FilterRequest, x: Row<D>, searchHit: bool)
    requires s.get(x, "IsDeleted") == VBool(x.isDeleted) && s.get(x, "CreatedAt") == VTime(x.createdAt)
    requires s.stringProps != []
    requires !IsNullOrWhiteSpace(f.searchTerm) ==> SearchEval(s, s.stringProps, Lower(f.searchTerm.value), x) == Some(searchHit)
    ensures EvalAll(s, BaseConditions(s, f), x) == Some(BaseMatches(f, x, searchHit))
  {
    SearchConditionsMeaning(s, f, x, searchHit);
    ColumnConditionsMeaning(s, f, x);
    EvalAllAppend(s, SearchConditions(s, f.searchTerm), ColumnConditions(f), x);
  }

  /** The search condition, when there is a term, holds exactly on the rows the search hits. */
  lemma {:induction false} SearchConditionsMeaning<D>(s: Schema<Row<D>>, f: FilterRequest, x: Row<D>, searchHit: bool)
    requires s.stringProps != []
    requires !IsNullOrWhiteSpace(f.searchTerm) ==> SearchEval(s, s.stringProps, Lower(f.searchTerm.value), x) == Some(searchHit)
    ensures EvalAll(s, SearchConditions(s, f.searchTerm), x) == Some(IsNullOrWhiteSpace(f.searchTerm) || searchHit)
  {
    var search := SearchConditions(s, f.searchTerm);
    if search != [] { EvalAllOne(s, search[0], x); }
  }

  /** The IsDeleted, CreatedFrom and CreatedTo conditions compare the stored columns. */
  lemma {:induction false} ColumnConditionsMeaning<D>(s: Schema<Row<D>>, f: FilterRequest, x: Row<D>)
    requires s.get(x, "IsDeleted") == VBool(x.isDeleted) && s.get(x, "CreatedAt") == VTime(x.createdAt)
    ensures EvalAll(s, ColumnConditions(f), x) == Some(
      && (f.isDeleted.Some? ==> x.isDeleted == f.isDeleted.value)
      && (f.createdFrom.Some? ==> x.createdAt >= f.createdFrom.value)
      && (f.createdTo.Some? ==> x.createdAt <= f.createdTo.value))
  {
    var del := if f.isDeleted.Some? then [Equals("IsDeleted", VBool(f.isDeleted.value))] else [];
    var from := if f.createdFrom.Some? then [AtLeast("CreatedAt", f.createdFrom.value)] else [];
    var to := if f.createdTo.Some? then [AtMost("CreatedAt", f.createdTo.value)] else [];
    if del != [] { EvalAllOne(s, del[0], x); }
    if from != [] { EvalAllOne(s, from[0], x); }
    if to != [] { EvalAllOne(s, to[0], x); }
    assert EvalAll(s, del, x) == Some(f.isDeleted.Some? ==> x.isDeleted == f.isDeleted.value);
    assert EvalAll(s, from, x) == Some(f.createdFrom.Some? ==> x.createdAt >= f.createdFrom.value);
    assert EvalAll(s, to, x) == Some(f.createdTo.Some? ==> x.createdAt <= f.createdTo.value);
    EvalAllAppend(s, del, from, x);
    EvalAllAppend(s, del + from, to, x);
  }

  lemma {:induction false} EvalAllOne<T>(s: Schema<T>, p: Predicate, x: T)
    ensures EvalAll(s, [p], x) == Eval(s, p, x)
  {
    assert [p][1..] == [];
  }
}
