/**
 * Deferred LINQ queries over an in-memory list (`list.AsQueryable()` followed
 * by Where calls), as the listing operations build them.
 *
 * A `Query` is its source rows and the conditions its Where calls added. A
 * condition is a `Predicate`: the first-order form of the expression trees
 * the services and DynamicFilterHelper build. Running the query (Count(),
 * ToList()) evaluates the conditions on every row, left to right and
 * stopping at the first false; a condition that dereferences a null string
 * or a null navigation property throws, and the whole query throws with it.
 *
 * Reflection over the entity type is replaced by a `Schema`: the declared
 * type of each property, the string properties in declaration order, and
 * how a row's property values are read.
 */
module Queries {
  import opened Wrappers
  import opened Entities
  import opened Text

  /** A property value as an expression reads it. */
  datatype Value = VNull | VStr(s: string) | VGuid(g: Guid) | VBool(b: bool) | VTime(t: Time)
                 | VInt(i: int) | VLong(l: int) | VDecimal(d: real) | VObject

  /** Declared property types; `Reference` is a navigation or collection, `hasCode` when its type has a Code property. */
  datatype PropType = TString | TGuid | TNullableGuid | TBool | TDateTime | TNullableDateTime
                    | TInt | TLong | TDecimal | TReference(hasCode: bool)

  datatype Schema<!T> = Schema(
    propType: string -> Option<PropType>,   // typeof(T).GetProperty(name)
    stringProps: seq<string>,               // properties of type string, in declaration order
    get: (T, string) -> Value,              // e.<name>
    navCode: (T, string) -> Option<string>) // e.<nav>.Code; None when e.<nav> is null

  datatype Predicate =
    | Contains(prop: string, needle: string)        // e.prop.ToLower().Contains(needle)
    | NavCodeContains(nav: string, needle: string)  // e.nav.Code.ToLower().Contains(needle)
    | Equals(prop: string, value: Value)            // e.prop == value
    | AtLeast(prop: string, bound: Time)            // e.prop >= bound
    | AtMost(prop: string, bound: Time)             // e.prop <= bound
    | HasText(prop: string, expected: bool)         // !string.IsNullOrEmpty(e.prop) == expected
    | Or(left: Predicate, right: Predicate)         // OrElse
    | AnyContains(props: seq<string>, needle: string) // some listed property contains the needle, scanned in order
    | Never                                         // e => false

  /** Evaluating `p` on row `e`: Some(verdict), or None when it throws NullReferenceException. */
  function Eval<T>(s: Schema<T>, p: Predicate, e: T): Option<bool> {
    match p
    case Contains(prop, needle) => ContainsEval(s, prop, needle, e)
    case NavCodeContains(nav, needle) =>
      (match s.navCode(e, nav)
       case Some(code) => Some(Text.Contains(Lower(code), needle))
       case None => None)
    case Equals(prop, v) => Some(s.get(e, prop) == v)
    case AtLeast(prop, bound) => Some(s.get(e, prop).VTime? && s.get(e, prop).t >= bound)
    case AtMost(prop, bound) => Some(s.get(e, prop).VTime? && s.get(e, prop).t <= bound)
    case HasText(prop, expected) => Some((s.get(e, prop).VStr? && s.get(e, prop).s != "") == expected)
    case Or(l, r) =>
      (match Eval(s, l, e)
       case None => None
       case Some(true) => Some(true)
       case Some(false) => Eval(s, r, e))
    case AnyContains(props, needle) => SearchEval(s, props, needle, e)
    case Never => Some(false)
  }

  /** e.prop.ToLower().Contains(needle): throws on a null string. */
  function ContainsEval<T>(s: Schema<T>, prop: string, needle: string, e: T): Option<bool> {
    match s.get(e, prop)
    case VStr(v) => Some(Text.Contains(Lower(v), needle))
    case VNull => None
    case _ => Some(false)
  }

  /** The search disjunction: the first property (in order) that contains the needle decides. */
  function SearchEval<T>(s: Schema<T>, props: seq<string>, needle: string, e: T): Option<bool>
    decreases |props|
  {
    if props == [] then Some(false)
    else match ContainsEval(s, props[0], needle, e)
      case None => None
      case Some(true) => Some(true)
      case Some(false) => SearchEval(s, props[1..], needle, e)
  }

  /** Extending the scanned properties by one at the end is one more OrElse at the right. */
  lemma {:induction false} SearchEvalSnoc<T>(s: Schema<T>, props: seq<string>, prop: string, needle: string, e: T)
    ensures SearchEval(s, props + [prop], needle, e) ==
      match SearchEval(s, props, needle, e)
      case None => None
      case Some(true) => Some(true)
      case Some(false) => Eval(s, Contains(prop, needle), e)
    decreases |props|
  {
    if props == [] {
      assert [] + [prop] == [prop];
    } else {
      assert (props + [prop])[1..] == props[1..] + [prop];
      SearchEvalSnoc(s, props[1..], prop, needle, e);
    }
  }

  /** A search that succeeds says true exactly when some listed property contains the needle. */
  lemma {:induction false} SearchEvalMeaning<T>(s: Schema<T>, props: seq<string>, needle: string, e: T)
    requires SearchEval(s, props, needle, e).Some?
    ensures SearchEval(s, props, needle, e) == Some(true) <==>
      exists i :: 0 <= i < |props| && Eval(s, Contains(props[i], needle), e) == Some(true)
    decreases |props|
  {
    if props != [] && Eval(s, Contains(props[0], needle), e) == Some(false) {
      SearchEvalMeaning(s, props[1..], needle, e);
      forall i | 1 <= i < |props| ensures props[i] == props[1..][i - 1] { }
    }
  }

  /** All conditions of a Where chain on one row: left to right, stopping at the first false. */
  function EvalAll<T>(s: Schema<T>, ps: seq<Predicate>, e: T): Option<bool>
    decreases |ps|
  {
    if ps == [] then Some(true)
    else match Eval(s, ps[0], e)
      case None => None
      case Some(false) => Some(false)
      case Some(true) => EvalAll(s, ps[1..], e)
  }

  lemma {:induction false} EvalAllAppend<T>(s: Schema<T>, ps: seq<Predicate>, qs: seq<Predicate>, e: T)
    ensures EvalAll(s, ps + qs, e) ==
      match EvalAll(s, ps, e)
      case None => None
      case Some(false) => Some(false)
      case Some(true) => EvalAll(s, qs, e)
    decreases |ps|
  {
    if ps == [] {
      assert [] + qs == qs;
    } else {
      assert (ps + qs)[1..] == ps[1..] + qs;
      EvalAllAppend(s, ps[1..], qs, e);
    }
  }

  /** A chain that does not throw holds exactly when every condition holds. */
  lemma {:induction false} EvalAllMeaning<T>(s: Schema<T>, ps: seq<Predicate>, e: T)
    requires EvalAll(s, ps, e).Some?
    ensures EvalAll(s, ps, e) == Some(true) <==> forall i :: 0 <= i < |ps| ==> Eval(s, ps[i], e) == Some(true)
    decreases |ps|
  {
    if ps != [] && Eval(s, ps[0], e) == Some(true) {
      EvalAllMeaning(s, ps[1..], e);
      forall i | 1 <= i < |ps| ensures ps[i] == ps[1..][i - 1] { }
    }
  }

  /** A chain whose every condition holds on the row holds on it. */
  lemma {:induction false} EvalAllTrue<T>(s: Schema<T>, ps: seq<Predicate>, e: T)
    requires forall i :: 0 <= i < |ps| ==> Eval(s, ps[i], e) == Some(true)
    ensures EvalAll(s, ps, e) == Some(true)
    decreases |ps|
  {
    if ps != [] {
      assert Eval(s, ps[0], e) == Some(true);
      forall i | 0 <= i < |ps| - 1 ensures Eval(s, ps[1..][i], e) == Some(true) {
        assert ps[1..][i] == ps[i + 1];
      }
      EvalAllTrue(s, ps[1..], e);
    }
  }

  datatype Query<T> = Query(source: seq<T>, conditions: seq<Predicate>)

  /** queryable.Where(p). */
  function Where<T>(q: Query<T>, p: Predicate): Query<T> {
    Query(q.source, q.conditions + [p])
  }

  /** Running the query: the rows every condition accepts, in source order, or None if a row throws. */
  function Run<T>(s: Schema<T>, q: Query<T>): Option<seq<T>> {
    Select(s, q.source, q.conditions)
  }

  function Select<T>(s: Schema<T>, xs: seq<T>, ps: seq<Predicate>): (r: Option<seq<T>>)
    ensures r.Some? ==> |r.value| <= |xs|
    decreases |xs|
  {
    if xs == [] then Some([])
    else match (EvalAll(s, ps, xs[0]), Select(s, xs[1..], ps))
      case (None, _) => None
      case (_, None) => None
      case (Some(keep), Some(rest)) => Some(if keep then [xs[0]] + rest else rest)
  }

  /** The query throws exactly when some source row throws. */
  lemma {:induction false} SelectFails<T>(s: Schema<T>, xs: seq<T>, ps: seq<Predicate>)
    ensures Select(s, xs, ps).None? <==> exists i :: 0 <= i < |xs| && EvalAll(s, ps, xs[i]).None?
    decreases |xs|
  {
    if xs != [] {
      SelectFails(s, xs[1..], ps);
      forall i | 1 <= i < |xs| ensures xs[i] == xs[1..][i - 1] { }
      if exists i :: 1 <= i < |xs| && EvalAll(s, ps, xs[i]).None? {
        var i :| 1 <= i < |xs| && EvalAll(s, ps, xs[i]).None?;
        assert EvalAll(s, ps, xs[1..][i - 1]).None?;
      }
    }
  }

  /** A chain that throws on no source row makes the query succeed. */
  lemma {:induction false} SelectTotal<T>(s: Schema<T>, xs: seq<T>, ps: seq<Predicate>)
    requires forall x :: x in xs ==> EvalAll(s, ps, x).Some?
    ensures Select(s, xs, ps).Some?
    decreases |xs|
  {
    if xs != [] {
      assert xs[0] in xs;
      SelectTotal(s, xs[1..], ps);
    }
  }

  /** A result row is a source row the conditions accept; every accepted source row is in the result. */
  lemma {:induction false} SelectMembers<T>(s: Schema<T>, xs: seq<T>, ps: seq<Predicate>)
    requires Select(s, xs, ps).Some?
    ensures forall x :: x in Select(s, xs, ps).value <==> x in xs && EvalAll(s, ps, x) == Some(true)
    decreases |xs|
  {
    if xs != [] {
      SelectMembers(s, xs[1..], ps);
      assert forall x :: x in xs <==> x == xs[0] || x in xs[1..];
    }
  }

  /** Conditions that decide a plain predicate `m` on every source row select exactly the rows satisfying `m`. */
  lemma {:induction false} SelectDecidedBy<T>(s: Schema<T>, xs: seq<T>, ps: seq<Predicate>, m: T -> bool)
    requires forall x :: x in xs ==> EvalAll(s, ps, x) == Some(m(x))
    ensures Run(s, Query(xs, ps)).Some?
    ensures forall x :: x in Run(s, Query(xs, ps)).value <==> x in xs && m(x)
  {
    SelectTotal(s, xs, ps);
    SelectMembers(s, xs, ps);
  }

  /** `ys` is `xs` with some elements left out, order kept. */
  ghost predicate IsSubsequence<T>(ys: seq<T>, xs: seq<T>)
    decreases |xs|
  {
    if ys == [] then true
    else if xs == [] then false
    else (ys[0] == xs[0] && IsSubsequence(ys[1..], xs[1..])) || IsSubsequence(ys, xs[1..])
  }

  /** The result keeps source order. */
  lemma {:induction false} SelectIsSubsequence<T>(s: Schema<T>, xs: seq<T>, ps: seq<Predicate>)
    requires Select(s, xs, ps).Some?
    ensures IsSubsequence(Select(s, xs, ps).value, xs)
    decreases |xs|
  {
    if xs != [] {
      SelectIsSubsequence(s, xs[1..], ps);
      var rest := Select(s, xs[1..], ps).value;
      if EvalAll(s, ps, xs[0]) == Some(true) {
        assert ([xs[0]] + rest)[1..] == rest;
      }
    }
  }

  /** Where(p).Where(q) on the result of Where(p) is one Where chain: conditions compose. */
  lemma {:induction false} SelectAppend<T>(s: Schema<T>, xs: seq<T>, ps: seq<Predicate>, qs: seq<Predicate>)
    ensures Select(s, xs, ps + qs) ==
      match Select(s, xs, ps)
      case None => None
      case Some(ys) => Select(s, ys, qs)
    decreases |xs|
  {
    if xs != [] {
      SelectAppend(s, xs[1..], ps, qs);
      EvalAllAppend(s, ps, qs, xs[0]);
      match Select(s, xs[1..], ps)
      case None =>
      case Some(rest) =>
        if EvalAll(s, ps, xs[0]) == Some(true) {
          assert ([xs[0]] + rest)[1..] == rest;
        }
    }
  }

  /** Conditions that agree on every row give the same result. */
  lemma {:induction false} SelectCongruent<T>(s: Schema<T>, xs: seq<T>, ps: seq<Predicate>, qs: seq<Predicate>)
    requires forall x :: x in xs ==> EvalAll(s, ps, x) == EvalAll(s, qs, x)
    ensures Select(s, xs, ps) == Select(s, xs, qs)
    decreases |xs|
  {
    if xs != [] {
      SelectCongruent(s, xs[1..], ps, qs);
    }
  }

  /** A Where that accepts every row it is asked about changes nothing. */
  lemma {:induction false} SelectAllTrue<T>(s: Schema<T>, xs: seq<T>, ps: seq<Predicate>)
    requires forall x :: x in xs ==> EvalAll(s, ps, x) == Some(true)
    ensures Select(s, xs, ps) == Some(xs)
    decreases |xs|
  {
    if xs != [] {
      SelectAllTrue(s, xs[1..], ps);
      assert xs == [xs[0]] + xs[1..];
    }
  }

  /** A Where that rejects every row empties the query. */
  lemma {:induction false} SelectAllFalse<T>(s: Schema<T>, xs: seq<T>, ps: seq<Predicate>)
    requires forall x :: x in xs ==> EvalAll(s, ps, x) == Some(false)
    ensures Select(s, xs, ps) == Some([])
    decreases |xs|
  {
    if xs != [] {
      SelectAllFalse(s, xs[1..], ps);
    }
  }

  /** A chain holding every condition of `ps` selects only rows `ps` selects. */
  lemma SelectStronger<T>(s: Schema<T>, xs: seq<T>, ps: seq<Predicate>, qs: seq<Predicate>)
    requires forall p :: p in ps ==> p in qs
    requires Select(s, xs, qs).Some?
    ensures forall x :: x in Select(s, xs, qs).value ==>
      x in xs && (Select(s, xs, ps).Some? ==> x in Select(s, xs, ps).value)
  {
    SelectMembers(s, xs, qs);
    forall x | x in Select(s, xs, qs).value && Select(s, xs, ps).Some?
      ensures x in Select(s, xs, ps).value
    {
      SelectMembers(s, xs, ps);
      EvalAllMeaning(s, qs, x);
      forall i | 0 <= i < |ps| ensures Eval(s, ps[i], x) == Some(true) {
        assert ps[i] in qs;
        var j :| 0 <= j < |qs| && qs[j] == ps[i];
      }
      EvalAllTrue(s, ps, x);
    }
  }

  /** Two queries over the same rows whose condition chains agree on every row. */
  ghost predicate Equivalent<T>(s: Schema<T>, a: Query<T>, b: Query<T>) {
    a.source == b.source && forall e :: e in a.source ==> EvalAll(s, a.conditions, e) == EvalAll(s, b.conditions, e)
  }

  lemma {:induction false} EquivalentRefl<T>(s: Schema<T>, a: Query<T>)
    ensures Equivalent(s, a, a)
  {
  }

  lemma {:induction false} EquivalentRun<T>(s: Schema<T>, a: Query<T>, b: Query<T>)
    requires Equivalent(s, a, b)
    ensures Run(s, a) == Run(s, b)
  {
    SelectCongruent(s, a.source, a.conditions, b.conditions);
  }

  /** Adding the same condition to two equivalent queries keeps them equivalent. */
  lemma {:induction false} EquivalentWhere<T>(s: Schema<T>, a: Query<T>, b: Query<T>, p: Predicate, p': Predicate)
    requires Equivalent(s, a, b)
    requires forall e :: e in a.source ==> Eval(s, p, e) == Eval(s, p', e)
    ensures Equivalent(s, Where(a, p), Where(b, p'))
  {
    forall e | e in a.source ensures EvalAll(s, a.conditions + [p], e) == EvalAll(s, b.conditions + [p'], e) {
      EvalAllAppend(s, a.conditions, [p], e);
      EvalAllAppend(s, b.conditions, [p'], e);
    }
  }

  /** Appending the same conditions to two equivalent queries keeps them equivalent. */
  lemma {:induction false} EquivalentAppend<T>(s: Schema<T>, a: Query<T>, b: Query<T>, ps: seq<Predicate>)
    requires Equivalent(s, a, b)
    ensures Equivalent(s, Query(a.source, a.conditions + ps), Query(b.source, b.conditions + ps))
  {
    forall e | e in a.source ensures EvalAll(s, a.conditions + ps, e) == EvalAll(s, b.conditions + ps, e) {
      EvalAllAppend(s, a.conditions, ps, e);
      EvalAllAppend(s, b.conditions, ps, e);
    }
  }
}
