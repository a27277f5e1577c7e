/** What the three report validators keep, drop and refuse. */
module ReportFilter {
  import opened Wrappers
  import opened Text
  import opened Json
  import opened GridCheck
  import opened Definition
  import opened DefinitionCache

  datatype Filtered =
    | Kept(accepted: Fields, dropped: seq<string>)
    | Refused(name: string, reason: Reason)

  function ProblemWith(defs: Definitions, values: Fields, name: string): Option<Reason> {
    if name in values && name in defs then CheckValue(defs[name], values[name]) else None
  }

  predicate Valid(defs: Definitions, values: Fields, name: string) {
    ProblemWith(defs, values, name).None?
  }

  function Known(defs: Definitions, values: Fields): Fields {
    map name | name in values && name in defs :: values[name]
  }

  /** Exactly the names in `names`, each once, in whatever order. */
  ghost predicate Lists(names: set<string>, listed: seq<string>) {
    multiset(listed) == multiset(names)
  }

  ghost predicate FilterResult(defs: Definitions, values: Fields, f: Filtered) {
    match f
    case Kept(accepted, dropped) =>
      && (forall name :: name in values ==> Valid(defs, values, name))
      && accepted == Known(defs, values)
      && Lists(values.Keys - defs.Keys, dropped)
    case Refused(name, reason) =>
      name in values && name in defs && ProblemWith(defs, values, name) == Some(reason)
  }

  lemma ListsOneMore(names: set<string>, listed: seq<string>, name: string)
    requires Lists(names, listed) && name !in names
    ensures Lists(names + {name}, listed + [name])
  {
  }

  /** The entries in `done` have been sorted into accepted and dropped. */
  ghost predicate Sorted(known: set<string>, values: Fields, done: set<string>, accepted: Fields,
      dropped: seq<string>)
  {
    && done <= values.Keys
    && accepted == (map name | name in done && name in known :: values[name])
    && Lists(done - known, dropped)
  }

  lemma SortedOneMore(known: set<string>, values: Fields, done: set<string>, accepted: Fields, dropped: seq<string>,
                      name: string)
    requires Sorted(known, values, done, accepted, dropped) && name in values && name !in done
    ensures name in known ==> Sorted(known, values, done + {name}, accepted[name := values[name]], dropped)
    ensures name !in known ==> Sorted(known, values, done + {name}, accepted, dropped + [name])
  {
    if name in known {
      assert (done + {name}) - known == done - known;
    } else {
      assert (done + {name}) - known == (done - known) + {name};
      ListsOneMore(done - known, dropped, name);
    }
  }

  /** `name` is the first in the order that has a problem. */
  predicate FirstProblem(order: seq<string>, known: set<string>, problem: string -> Option<Reason>, name: string) {
    exists i :: 0 <= i < |order| && order[i] == name && FirstProblemAt(order, known, problem, i)
  }

  predicate FirstProblemAt(order: seq<string>, known: set<string>, problem: string -> Option<Reason>, i: nat)
    requires i < |order|
  {
    && order[i] in known && problem(order[i]).Some?
    && forall j :: 0 <= j < i && order[j] in known ==> problem(order[j]).None?
  }

  /** The loop shared by the validators, over the entries in the order given. */
  method FilterEntries(known: set<string>, values: Fields, order: seq<string>, problem: string -> Option<Reason>)
    returns (f: Filtered)
    requires Lists(values.Keys, order)
    ensures f.Kept? ==>
              && (forall name :: name in values && name in known ==> problem(name).None?)
              && Sorted(known, values, values.Keys, f.accepted, f.dropped)
    ensures f.Refused? ==> FirstProblem(order, known, problem, f.name) && problem(f.name) == Some(f.reason)
  {
    var accepted: Fields := map[];
    var dropped: seq<string> := [];
    ghost var done: set<string> := {};
    ListsEachOnce(values.Keys, order);
    for i := 0 to |order|
      invariant forall name :: name in done <==> name in order[..i]
      invariant forall j :: 0 <= j < i && order[j] in known ==> problem(order[j]).None?
      invariant Sorted(known, values, done, accepted, dropped)
    {
      var name := order[i];
      SortedOneMore(known, values, done, accepted, dropped, name);
      done := done + {name};
      if name !in known {
        dropped := dropped + [name];
      } else {
        var found := problem(name);
        if found.Some? {
          assert FirstProblemAt(order, known, problem, i);
          return Refused(name, found.value);
        }
        accepted := accepted[name := values[name]];
      }
    }
    assert done == values.Keys;
    return Kept(accepted, dropped);
  }

  lemma ListsEachOnce(names: set<string>, listed: seq<string>)
    requires Lists(names, listed)
    ensures forall name :: name in listed <==> name in names
    ensures forall i, j :: 0 <= i < j < |listed| ==> listed[i] != listed[j]
  {
    assert forall name :: name in listed <==> name in multiset(listed);
    forall i, j | 0 <= i < j < |listed|
      ensures listed[i] != listed[j]
    {
      assert listed == listed[..j] + listed[j..];
      assert multiset(listed) == multiset(listed[..j]) + multiset(listed[j..]);
      assert listed[j] == listed[j..][0] && listed[i] == listed[..j][i];
      assert listed[j] in multiset(listed[j..]) && listed[i] in multiset(listed[..j]);
      assert multiset(listed)[listed[j]] <= 1;
    }
  }

  method FilterValues(defs: Definitions, values: Fields, order: seq<string>) returns (f: Filtered)
    requires Lists(values.Keys, order)
    ensures FilterResult(defs, values, f)
    ensures f.Refused? ==> FirstProblem(order, defs.Keys, name => ProblemWith(defs, values, name), f.name)
  {
    var problem := name => ProblemWith(defs, values, name);
    ListsEachOnce(values.Keys, order);
    f := FilterEntries(defs.Keys, values, order, problem);
  }

  lemma ListedNames(names: set<string>, listed: seq<string>)
    requires Lists(names, listed)
    ensures |listed| == |names| && forall name :: name in listed <==> name in names
  {
    assert forall name :: name in listed <==> name in multiset(listed);
    assert |listed| == |multiset(listed)|;
  }

  /** Two runs of the loop differ at most in the order of `dropped` and in which bad entry they name. */
  lemma OrderIsIrrelevant(defs: Definitions, values: Fields, f: Filtered, g: Filtered)
    requires FilterResult(defs, values, f) && FilterResult(defs, values, g)
    ensures f.Kept? <==> g.Kept?
    ensures f.Kept? <==> forall name :: name in values ==> Valid(defs, values, name)
    ensures f.Kept? ==> f.accepted == g.accepted && multiset(f.dropped) == multiset(g.dropped)
  {
  }

  /** Nothing is lost: every reported name is either accepted or dropped, never both. */
  lemma EveryNameIsAccountedFor(defs: Definitions, values: Fields, f: Filtered)
    requires FilterResult(defs, values, f) && f.Kept?
    ensures forall name :: name in values <==> name in f.accepted || name in f.dropped
    ensures |f.accepted| + |f.dropped| == |values|
  {
    ListedNames(values.Keys - defs.Keys, f.dropped);
    assert f.accepted.Keys == values.Keys * defs.Keys;
    SplitCounts(values.Keys, defs.Keys);
  }

  lemma SplitCounts(names: set<string>, known: set<string>)
    ensures |names * known| + |names - known| == |names|
  {
    assert names * known + (names - known) == names;
  }

  /** An order of the names that starts with a given one. */
  lemma OrderFrom(names: set<string>, first: string) returns (order: seq<string>)
    requires first in names
    ensures Lists(names, order) && |order| > 0 && order[0] == first
  {
    order := [first];
    var rest := names - {first};
    assert names - rest == {first};
    while rest != {}
      invariant rest <= names && Lists(names - rest, order)
      invariant |order| > 0 && order[0] == first
      decreases |rest|
    {
      var name :| name in rest;
      assert names - (rest - {name}) == (names - rest) + {name};
      ListsOneMore(names - rest, order, name);
      order := order + [name];
      rest := rest - {name};
    }
    assert names - rest == names;
  }

  /** In the order given the loop can only name the first problem. */
  lemma FirstProblemIsOne(
      order: seq<string>, known: set<string>, problem: string -> Option<Reason>, name: string, other: string)
    requires FirstProblem(order, known, problem, name) && FirstProblem(order, known, problem, other)
    ensures name == other
  {
    var i :| 0 <= i < |order| && order[i] == name && FirstProblemAt(order, known, problem, i);
    var j :| 0 <= j < |order| && order[j] == other && FirstProblemAt(order, known, problem, j);
  }

  /** Which invalid entry a refusal names is up to the order: for each there is one in which the loop names just it. */
  lemma RefusalMayNameAny(defs: Definitions, values: Fields, name: string) returns (order: seq<string>)
    requires !Valid(defs, values, name)
    ensures Lists(values.Keys, order)
    ensures
      forall f :: FilterResult(defs, values, f)
        && (f.Refused? ==> FirstProblem(order, defs.Keys, n => ProblemWith(defs, values, n), f.name))
        ==> f == Refused(name, ProblemWith(defs, values, name).value)
  {
    order := OrderFrom(values.Keys, name);
    var problem := n => ProblemWith(defs, values, n);
    assert FirstProblemAt(order, defs.Keys, problem, 0);
    assert FirstProblem(order, defs.Keys, problem, name);
    forall f | FilterResult(defs, values, f) && (f.Refused? ==> FirstProblem(order, defs.Keys, problem, f.name))
      ensures f == Refused(name, ProblemWith(defs, values, name).value)
    {
      if f.Refused? {
        FirstProblemIsOne(order, defs.Keys, problem, name, f.name);
      }
    }
  }

  // ----- the three validators -----

  datatype Problem<E> =
    | Cancelled
    | IdsRequired
    | Reader(error: E)
    | NotDeclared
    | NoneAccepted
    | Invalid(name: string, reason: Reason)

  datatype Report<E> =
    | Accepted(accepted: Fields, dropped: seq<string>)
    | Rejected(problem: Problem<E>, dropped: seq<string>)

  ghost predicate FilteredReport<E>(defs: Definitions, values: Fields, someRequired: bool, r: Report<E>) {
    match r
    case Accepted(accepted, dropped) =>
      && FilterResult(defs, values, Kept(accepted, dropped))
      && (someRequired ==> accepted != map[])
    case Rejected(NoneAccepted, dropped) =>
      someRequired && FilterResult(defs, values, Kept(map[], dropped))
    case Rejected(Invalid(name, reason), dropped) =>
      FilterResult(defs, values, Refused(name, reason)) && dropped == []
    case _ => false
  }

  ghost predicate PropertyReport<E>(model: ThingsModel, properties: Fields, r: Report<E>) {
    FilteredReport(model.properties, properties, true, r)
  }

  /** Everything is dropped, and that is fine. */
  ghost predicate NothingDeclared<E>(values: Fields, r: Report<E>) {
    r.Accepted? && r.accepted == map[] && Lists(values.Keys, r.dropped)
  }

  ghost predicate EventReport<E>(model: ThingsModel, event: string, params: Fields, r: Report<E>) {
    if event !in model.events then r == Rejected(NotDeclared, [])
    else if model.events[event] == map[] then NothingDeclared(params, r)
    else if params == map[] then r == Rejected(NoneAccepted, [])
    else FilteredReport(model.events[event], params, true, r)
  }

  ghost predicate ServiceReport<E>(model: ThingsModel, service: string, output: Fields, r: Report<E>) {
    if service !in model.services then r == Rejected(NotDeclared, [])
    else if model.services[service] == map[] then NothingDeclared(output, r)
    else if output == map[] then r == Accepted(map[], [])
    else FilteredReport(model.services[service], output, false, r)
  }

  method FilterReport<E>(defs: Definitions, values: Fields, someRequired: bool) returns (r: Report<E>)
    ensures FilteredReport(defs, values, someRequired, r)
  {
    var order := KeysOf(values);
    var f := FilterValues(defs, values, order);
    match f {
      case Refused(name, reason) => r := Rejected(Invalid(name, reason), []);
      case Kept(accepted, dropped) =>
        r := if someRequired && accepted == map[] then Rejected(NoneAccepted, dropped) else Accepted(accepted, dropped);
    }
  }

  method KeysOf(values: Fields) returns (keys: seq<string>)
    ensures Lists(values.Keys, keys)
  {
    keys := [];
    var rest := values.Keys;
    while rest != {}
      invariant rest <= values.Keys
      invariant Lists(values.Keys - rest, keys)
      decreases |rest|
    {
      var key :| key in rest;
      assert values.Keys - (rest - {key}) == (values.Keys - rest) + {key};
      ListsOneMore(values.Keys - rest, keys, key);
      keys := keys + [key];
      rest := rest - {key};
    }
  }

  /** The definition a lookup at `now` works with. */
  function Consulted<E>(cache: Cache, tenant: string, product: string, now: int, answer: Result<ThingsModel, E>)
    : Result<ThingsModel, E>
  {
    var key := CacheKey(tenant, product);
    if Hit(cache, key, now) then Success(cache[key].definition) else answer
  }

  class ReportValidator<E> {
    const definitions: ReaderCache

    constructor (definitions: ReaderCache)
      ensures this.definitions == definitions
    {
      this.definitions := definitions;
    }

    method ValidateProperties(cancelled: bool, tenant: string, product: string, properties: Fields,
                              now: int, answer: Result<ThingsModel, E>, later: int)
      returns (r: Report<E>)
      modifies definitions
      ensures
        var t, p := TrimSpace(tenant), TrimSpace(product);
        if cancelled then r == Rejected(Cancelled, [])
        else if t == "" || p == "" then r == Rejected(IdsRequired, [])
        else if properties == map[] then r == Rejected(NoneAccepted, [])
        else
          match Consulted(old(definitions.cache), t, p, now, answer)
          case Failure(e) => r == Rejected(Reader(e), [])
          case Success(model) => PropertyReport(model, properties, r)
    {
      if cancelled {
        return Rejected(Cancelled, []);
      }
      var t, p := TrimSpace(tenant), TrimSpace(product);
      if t == "" || p == "" {
        return Rejected(IdsRequired, []);
      }
      if properties == map[] {
        return Rejected(NoneAccepted, []);
      }
      var found := definitions.Lookup(t, p, now, answer, later);
      if found.Failure? {
        return Rejected(Reader(found.error), []);
      }
      r := FilterReport(found.value.properties, properties, true);
    }

    method ValidateEvent(cancelled: bool, tenant: string, product: string, name: string, params: Fields,
                         now: int, answer: Result<ThingsModel, E>, later: int)
      returns (r: Report<E>)
      modifies definitions
      ensures
        var t, p, event := TrimSpace(tenant), TrimSpace(product), TrimSpace(name);
        if cancelled then r == Rejected(Cancelled, [])
        else if t == "" || p == "" || event == "" then r == Rejected(IdsRequired, [])
        else
          match Consulted(old(definitions.cache), t, p, now, answer)
          case Failure(e) => r == Rejected(Reader(e), [])
          case Success(model) => EventReport(model, event, params, r)
    {
      if cancelled {
        return Rejected(Cancelled, []);
      }
      var t, p, event := TrimSpace(tenant), TrimSpace(product), TrimSpace(name);
      if t == "" || p == "" || event == "" {
        return Rejected(IdsRequired, []);
      }
      var found := definitions.Lookup(t, p, now, answer, later);
      if found.Failure? {
        return Rejected(Reader(found.error), []);
      }
      if event !in found.value.events {
        return Rejected(NotDeclared, []);
      }
      var output := found.value.events[event];
      if output == map[] {
        var keys := KeysOf(params);
        return Accepted(map[], keys);
      }
      if params == map[] {
        return Rejected(NoneAccepted, []);
      }
      r := FilterReport(output, params, true);
    }

    method ValidateServiceCall(cancelled: bool, tenant: string, product: string, name: string, values: Fields,
                               now: int, answer: Result<ThingsModel, E>, later: int)
      returns (r: Report<E>)
      modifies definitions
      ensures
        var t, p, service := TrimSpace(tenant), TrimSpace(product), TrimSpace(name);
        if cancelled then r == Rejected(Cancelled, [])
        else if t == "" || p == "" || service == "" then r == Rejected(IdsRequired, [])
        else
          match Consulted(old(definitions.cache), t, p, now, answer)
          case Failure(e) => r == Rejected(Reader(e), [])
          case Success(model) => ServiceReport(model, service, values, r)
    {
      if cancelled {
        return Rejected(Cancelled, []);
      }
      var t, p, service := TrimSpace(tenant), TrimSpace(product), TrimSpace(name);
      if t == "" || p == "" || service == "" {
        return Rejected(IdsRequired, []);
      }
      var found := definitions.Lookup(t, p, now, answer, later);
      if found.Failure? {
        return Rejected(Reader(found.error), []);
      }
      if service !in found.value.services {
        return Rejected(NotDeclared, []);
      }
      var output := found.value.services[service];
      if output == map[] {
        var keys := KeysOf(values);
        return Accepted(map[], keys);
      }
      if values == map[] {
        return Accepted(map[], []);
      }
      r := FilterReport(output, values, false);
    }
  }

  // ----- in terms of the value check -----

  /** Every accepted value was reported, is defined, and passes the value check of its definition. */
  ghost predicate Fits(defs: Definitions, values: Fields, accepted: Fields) {
    forall name :: name in accepted ==>
      && name in values && accepted[name] == values[name]
      && name in defs && CheckValue(defs[name], accepted[name]).None?
  }

  /** The entry was reported, is defined, and fails its value check for this reason. */
  ghost predicate Fails(defs: Definitions, values: Fields, name: string, reason: Reason) {
    name in values && name in defs && CheckValue(defs[name], values[name]) == Some(reason)
  }

  /** What a filtered report answers for: fitting values only, a reason that holds, and every known value checked. */
  ghost predicate Answers<E>(defs: Definitions, values: Fields, r: Report<E>) {
    && (r.Accepted? ==> Fits(defs, values, r.accepted))
    && (r.Accepted? ==> forall name :: name in values && name in defs ==>
         name in r.accepted && CheckValue(defs[name], values[name]).None?)
    && (r.Rejected? && r.problem.Invalid? ==> Fails(defs, values, r.problem.name, r.problem.reason))
  }

  lemma FilteredAnswers<E>(defs: Definitions, values: Fields, someRequired: bool, r: Report<E>)
    requires FilteredReport(defs, values, someRequired, r)
    ensures Answers(defs, values, r)
    ensures r.Rejected? && !r.problem.Invalid? ==>
              someRequired && r.problem.NoneAccepted? && forall name :: name in values ==> name !in defs
  {
    if r.Accepted? {
      forall name | name in values && name in defs
        ensures name in r.accepted && CheckValue(defs[name], values[name]).None?
      {
        assert Valid(defs, values, name) && name in Known(defs, values);
      }
    } else if r.problem.NoneAccepted? {
      forall name | name in values
        ensures name !in defs
      {
        assert Known(defs, values) == map[];
        assert name in defs ==> name in Known(defs, values);
      }
    }
  }

  /** The report of properties, of an event's parameters and of a service's output all answer for their values. */
  lemma ReportsAnswer<E>(model: ThingsModel, name: string, values: Fields, r: Report<E>)
    ensures PropertyReport(model, values, r) ==> Answers(model.properties, values, r)
    ensures EventReport(model, name, values, r) ==>
              if name in model.events then Answers(model.events[name], values, r) else r == Rejected(NotDeclared, [])
    ensures ServiceReport(model, name, values, r) ==>
              if name in model.services then Answers(model.services[name], values, r)
                  else r == Rejected(NotDeclared, [])
  {
    if PropertyReport(model, values, r) {
      FilteredAnswers(model.properties, values, true, r);
    }
    if name in model.events && EventReport(model, name, values, r) && model.events[name] != map[] && values != map[] {
      FilteredAnswers(model.events[name], values, true, r);
    }
    if name in model.services && ServiceReport(model, name, values, r) && model.services[name] != map[] &&
        values != map[] {
      FilteredAnswers(model.services[name], values, false, r);
    }
  }

  /** A property report is accepted exactly when every known entry is valid and at least one is known. */
  lemma PropertyReportAcceptedExactly<E>(model: ThingsModel, properties: Fields, r: Report<E>)
    requires PropertyReport(model, properties, r)
    ensures r.Accepted? <==>
            && (forall name :: name in properties && name in model.properties ==>
                 CheckValue(model.properties[name], properties[name]).None?)
            && (exists name :: name in properties && name in model.properties)
    ensures r.Accepted? ==> r.accepted == Known(model.properties, properties)
    ensures r.Accepted? ==> Lists(properties.Keys - model.properties.Keys, r.dropped)
    ensures Answers(model.properties, properties, r)
    ensures r.Rejected? ==> (r.problem.Invalid? <==>
        exists name :: name in properties && !Valid(model.properties, properties, name))
  {
    FilteredAnswers(model.properties, properties, true, r);
    if r.Accepted? {
      var name :| name in r.accepted;
      assert name in properties && name in model.properties;
    }
    assert forall name :: name in properties && name in model.properties ==>
        name in Known(model.properties, properties);
  }
}
