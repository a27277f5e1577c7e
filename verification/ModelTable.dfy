/** Thing models as rows of a table, changed by transactions that commit or roll back. */
module ModelTable {
  import opened Wrappers
  import opened Messaging
  import opened Text
  import opened Json
  import opened Publication
  import opened Definition

  const STATUSES: seq<string> := ["draft", "published", "deprecated"]

  datatype Content = Content(properties: Fields, events: Fields, services: Fields)

  datatype Model = Model(
    tenant: string,
    product: string,
    version: int,
    name: string,
    status: string,
    isCurrent: bool,
    content: Content,
    publishedAt: Option<int>)

  type Rows = map<string, Model>

  datatype CreateInput = CreateInput(
    user: string, tenant: string, product: string, version: int, name: string, status: string, isCurrent: bool,
    content: Content)

  datatype UpdateInput = UpdateInput(user: string, id: string, name: string, status: string, isCurrent: bool,
      content: Content)

  datatype TableError = InvalidInput | AlreadyExists | NotFound | StoreFailed

  // ----- the service in front of the table -----

  function NormalStatus(status: string): string {
    if TrimSpace(status) == "" then "draft" else TrimSpace(status)
  }

  predicate Publishable(status: string, isCurrent: bool, content: Content) {
    && status in STATUSES
    && (isCurrent ==> status == "published")
    && ValidModel(content.properties, content.events, content.services)
  }

  function NormalCreate(input: CreateInput): CreateInput {
    CreateInput(TrimSpace(input.user), TrimSpace(input.tenant), TrimSpace(input.product), input.version,
                TrimSpace(input.name), NormalStatus(input.status), input.isCurrent, input.content)
  }

  predicate CreateAdmitted(n: CreateInput) {
    && n.user != "" && n.tenant != "" && n.product != "" && n.name != "" && n.version > 0
    && Publishable(n.status, n.isCurrent, n.content)
  }

  function NormalUpdate(input: UpdateInput): UpdateInput {
    UpdateInput(TrimSpace(input.user), TrimSpace(input.id), TrimSpace(input.name), NormalStatus(input.status),
                input.isCurrent, input.content)
  }

  predicate UpdateAdmitted(n: UpdateInput) {
    && n.user != "" && n.id != "" && n.name != ""
    && Publishable(n.status, n.isCurrent, n.content)
  }

  // ----- the statements -----

  predicate InScope(model: Model, tenant: string, product: string) {
    model.tenant == tenant && model.product == product
  }

  /** Clearing the current mark within a product, except on one row. */
  function Cleared(rows: Rows, tenant: string, product: string, exceptId: string): Rows {
    map id | id in rows ::
      if InScope(rows[id], tenant, product) && rows[id].isCurrent && id != exceptId
      then rows[id].(isCurrent := false) else rows[id]
  }

  predicate VersionTaken(rows: Rows, tenant: string, product: string, version: int) {
    exists id :: id in rows && InScope(rows[id], tenant, product) && rows[id].version == version
  }

  function Inserted(rows: Rows, id: string, n: CreateInput, now: int): Rows {
    rows[id := Model(n.tenant, n.product, n.version, n.name, n.status, n.isCurrent, n.content,
                     if n.status == "published" then Some(now) else None)]
  }

  function Rewritten(rows: Rows, n: UpdateInput, now: int): Rows
    requires n.id in rows
  {
    var was := rows[n.id];
    rows[n.id := was.(
      name := n.name, status := n.status, isCurrent := n.isCurrent, content := n.content,
      publishedAt :=
        if n.status != "published" then None else if was.publishedAt.Some? then was.publishedAt else Some(now))]
  }

  // ----- the table -----

  /** The insert meets no conflict. */
  predicate Insertable(rows: Rows, n: CreateInput, id: string, productKnown: bool) {
    productKnown && id != "" && id !in rows && !VersionTaken(rows, n.tenant, n.product, n.version)
  }

  function AfterCreate(rows: Rows, n: CreateInput, id: string, now: int): Rows {
    Inserted(if n.isCurrent then Cleared(rows, n.tenant, n.product, "") else rows, id, n, now)
  }

  function AfterUpdate(rows: Rows, n: UpdateInput, now: int): Rows
    requires n.id in rows
  {
    Rewritten(if n.isCurrent then Cleared(rows, rows[n.id].tenant, rows[n.id].product, n.id) else rows, n, now)
  }

  class ThingsModelStore {
    var rows: Rows

    /**
     * `id` is the fresh row id, `productKnown` whether the product belongs to the tenant, `commit` how
     * the transaction ends.
     */
    method CreateModel(n: CreateInput, id: string, productKnown: bool, now: int, commit: Outcome)
      returns (r: Result<Model, TableError>)
      modifies this
      ensures rows ==
              if Insertable(old(rows), n, id, productKnown) && TookEffect(commit)
              then AfterCreate(old(rows), n, id, now)
              else old(rows)
      ensures r.Success? <==> Insertable(old(rows), n, id, productKnown) && commit.Done?
      ensures r.Success? ==> id in rows && r.value == rows[id]
      ensures !productKnown ==> r == Failure(InvalidInput)
    {
      if !productKnown {
        return Failure(InvalidInput);
      }
      var tx := rows;
      if n.isCurrent {
        tx := Cleared(tx, n.tenant, n.product, "");
      }
      assert VersionTaken(tx, n.tenant, n.product, n.version) <==>
             VersionTaken(rows, n.tenant, n.product, n.version) by {
        ClearingKeepsVersions(rows, n.tenant, n.product, n.version);
      }
      if id == "" || id in tx || VersionTaken(tx, n.tenant, n.product, n.version) {
        return Failure(AlreadyExists);
      }
      tx := Inserted(tx, id, n, now);
      if !commit.NotDone? {
        rows := tx;
      }
      return if commit.Done? then Success(tx[id]) else Failure(StoreFailed);
    }

    method UpdateModel(n: UpdateInput, now: int, commit: Outcome) returns (r: Result<Model, TableError>)
      modifies this
      ensures rows == if n.id in old(rows) && TookEffect(commit) then AfterUpdate(old(rows), n, now) else old(rows)
      ensures r.Success? <==> n.id in old(rows) && commit.Done?
      ensures r.Success? ==> n.id in rows && r.value == rows[n.id]
      ensures n.id !in old(rows) ==> r == Failure(NotFound)
    {
      if n.id !in rows {
        return Failure(NotFound);
      }
      var tx := rows;
      if n.isCurrent {
        tx := Cleared(tx, tx[n.id].tenant, tx[n.id].product, n.id);
      }
      tx := Rewritten(tx, n, now);
      if !commit.NotDone? {
        rows := tx;
      }
      return if commit.Done? then Success(tx[n.id]) else Failure(StoreFailed);
    }

    method DeleteModel(id: string, commit: Outcome) returns (r: Result<(), TableError>)
      modifies this
      ensures rows == if TookEffect(commit) then old(rows) - {id} else old(rows)
      ensures r.Success? <==> id in old(rows) && commit.Done?
      ensures id !in old(rows) ==> r == Failure(NotFound)
    {
      if id !in rows {
        return Failure(NotFound);
      }
      if !commit.NotDone? {
        rows := rows - {id};
      }
      return if commit.Done? then Success(()) else Failure(StoreFailed);
    }

    /** Any row the reader's query may return. */
    method FindCurrent(tenant: string, product: string) returns (found: Option<string>)
      ensures found.Some? ==> CurrentOf(rows, tenant, product, found.value)
      ensures found.None? ==> forall id :: !CurrentOf(rows, tenant, product, id)
    {
      if id :| id in rows && InScope(rows[id], tenant, product) && rows[id].isCurrent {
        return Some(id);
      }
      return None;
    }
  }

  lemma ClearingKeepsVersions(rows: Rows, tenant: string, product: string, version: int)
    ensures VersionTaken(Cleared(rows, tenant, product, ""), tenant, product, version) <==>
            VersionTaken(rows, tenant, product, version)
  {
    var after := Cleared(rows, tenant, product, "");
    if id :| id in rows && InScope(rows[id], tenant, product) && rows[id].version == version {
      assert InScope(after[id], tenant, product) && after[id].version == version;
    }
  }

  class ThingsModelService {
    const models: ThingsModelStore

    constructor (models: ThingsModelStore)
      ensures this.models == models
    {
      this.models := models;
    }

    method Create(input: CreateInput, id: string, productKnown: bool, now: int, commit: Outcome)
      returns (r: Result<Model, TableError>)
      modifies models
      ensures models.rows == Apply(old(models.rows), Transaction.Create(input, id, productKnown, now, commit))
      ensures r.Success? <==> CreateGoesThrough(old(models.rows), input, id, productKnown) && commit.Done?
      ensures !CreateAdmitted(NormalCreate(input)) || !productKnown ==> r == Failure(InvalidInput)
    {
      var n := NormalCreate(input);
      if !CreateAdmitted(n) {
        return Failure(InvalidInput);
      }
      r := models.CreateModel(n, id, productKnown, now, commit);
    }

    method Update(input: UpdateInput, now: int, commit: Outcome) returns (r: Result<Model, TableError>)
      modifies models
      ensures models.rows == Apply(old(models.rows), Transaction.Update(input, now, commit))
      ensures r.Success? <==> UpdateGoesThrough(old(models.rows), input) && commit.Done?
      ensures !UpdateAdmitted(NormalUpdate(input)) ==> r == Failure(InvalidInput)
    {
      var n := NormalUpdate(input);
      if !UpdateAdmitted(n) {
        return Failure(InvalidInput);
      }
      r := models.UpdateModel(n, now, commit);
    }

    method Delete(user: string, id: string, commit: Outcome) returns (r: Result<(), TableError>)
      modifies models
      ensures models.rows == Apply(old(models.rows), Transaction.Delete(user, id, commit))
      ensures r.Success? <==>
              TrimSpace(user) != "" && TrimSpace(id) != "" && TrimSpace(id) in old(models.rows) && commit.Done?
    {
      if TrimSpace(user) == "" || TrimSpace(id) == "" {
        return Failure(InvalidInput);
      }
      r := models.DeleteModel(TrimSpace(id), commit);
    }
  }

  predicate CreateGoesThrough(rows: Rows, input: CreateInput, id: string, productKnown: bool) {
    CreateAdmitted(NormalCreate(input)) && Insertable(rows, NormalCreate(input), id, productKnown)
  }

  predicate UpdateGoesThrough(rows: Rows, input: UpdateInput) {
    UpdateAdmitted(NormalUpdate(input)) && NormalUpdate(input).id in rows
  }

  // ----- every sequence of transactions -----

  datatype Transaction =
    | Create(create: CreateInput, id: string, productKnown: bool, now: int, commit: Outcome)
    | Update(update: UpdateInput, now: int, commit: Outcome)
    | Delete(user: string, id: string, commit: Outcome)

  function Apply(rows: Rows, t: Transaction): Rows {
    match t
    case Create(input, id, productKnown, now, commit) =>
      if CreateGoesThrough(rows, input, id, productKnown) && TookEffect(commit) then
        AfterCreate(rows, NormalCreate(input), id, now)
      else rows
    case Update(input, now, commit) =>
      if UpdateGoesThrough(rows, input) && TookEffect(commit) then AfterUpdate(rows, NormalUpdate(input), now) else rows
    case Delete(user, id, commit) =>
      if TrimSpace(user) != "" && TrimSpace(id) != "" && TookEffect(commit) then rows - {TrimSpace(id)} else rows
  }

  function Exec(ts: seq<Transaction>): Rows {
    if ts == [] then map[] else Apply(Exec(ts[..|ts| - 1]), ts[|ts| - 1])
  }

  predicate CurrentOf(rows: Rows, tenant: string, product: string, id: string) {
    id in rows && InScope(rows[id], tenant, product) && rows[id].isCurrent
  }

  ghost predicate OneCurrent(rows: Rows) {
    forall tenant, product, i, j ::
      CurrentOf(rows, tenant, product, i) && CurrentOf(rows, tenant, product, j) ==> i == j
  }

  predicate ModelFits(m: Model) {
    && m.status in STATUSES
    && (m.isCurrent ==> m.status == "published")
    && (m.publishedAt.Some? <==> m.status == "published")
    && ValidModel(m.content.properties, m.content.events, m.content.services)
  }

  ghost predicate Inv(rows: Rows) {
    OneCurrent(rows) && "" !in rows && forall id :: id in rows ==> ModelFits(rows[id])
  }

  lemma ClearedKeepsInv(rows: Rows, tenant: string, product: string, exceptId: string)
    requires Inv(rows)
    ensures Inv(Cleared(rows, tenant, product, exceptId))
    ensures forall id :: id != exceptId ==> !CurrentOf(Cleared(rows, tenant, product, exceptId), tenant, product, id)
  {
    var after := Cleared(rows, tenant, product, exceptId);
    forall id | id in after
      ensures ModelFits(after[id]) && (after[id].isCurrent ==> rows[id].isCurrent)
      ensures after[id].tenant == rows[id].tenant && after[id].product == rows[id].product
    {
      assert ModelFits(rows[id]);
    }
    FewerCurrent(rows, after);
  }

  /** Rows that only lose current marks keep their uniqueness. */
  lemma FewerCurrent(rows: Rows, after: Rows)
    requires OneCurrent(rows)
    requires forall id :: id in after && after[id].isCurrent ==>
               id in rows && rows[id].isCurrent && after[id].tenant == rows[id].tenant &&
                   after[id].product == rows[id].product
    ensures OneCurrent(after)
  {
    assert forall tenant, product, id :: CurrentOf(after, tenant, product, id) ==> CurrentOf(rows, tenant, product, id);
  }

  lemma WriteKeepsOneCurrent(rows: Rows, id: string, m: Model)
    requires OneCurrent(rows)
    requires m.isCurrent ==> forall other :: other != id ==> !CurrentOf(rows, m.tenant, m.product, other)
    ensures OneCurrent(rows[id := m])
  {
    var after := rows[id := m];
    assert forall tenant, product, other :: other != id ==>
        (CurrentOf(after, tenant, product, other) <==> CurrentOf(rows, tenant, product, other));
  }

  lemma WriteKeepsInv(rows: Rows, id: string, m: Model)
    requires Inv(rows) && ModelFits(m) && id != ""
    requires m.isCurrent ==> forall other :: other != id ==> !CurrentOf(rows, m.tenant, m.product, other)
    ensures Inv(rows[id := m])
  {
    WriteKeepsOneCurrent(rows, id, m);
    var after := rows[id := m];
    forall key | key in after
      ensures ModelFits(after[key])
    {
      assert key != id ==> ModelFits(rows[key]);
    }
  }

  lemma CreateKeepsInv(rows: Rows, n: CreateInput, id: string, productKnown: bool, now: int)
    requires Inv(rows) && CreateAdmitted(n) && Insertable(rows, n, id, productKnown)
    ensures Inv(AfterCreate(rows, n, id, now))
  {
    ClearedKeepsInv(rows, n.tenant, n.product, "");
    var base := if n.isCurrent then Cleared(rows, n.tenant, n.product, "") else rows;
    WriteKeepsInv(base, id, Inserted(base, id, n, now)[id]);
  }

  lemma UpdateKeepsInv(rows: Rows, n: UpdateInput, now: int)
    requires Inv(rows) && UpdateAdmitted(n) && n.id in rows
    ensures Inv(AfterUpdate(rows, n, now))
  {
    var was := rows[n.id];
    assert ModelFits(was);
    ClearedKeepsInv(rows, was.tenant, was.product, n.id);
    var base := if n.isCurrent then Cleared(rows, was.tenant, was.product, n.id) else rows;
    WriteKeepsInv(base, n.id, Rewritten(base, n, now)[n.id]);
  }

  lemma ApplyKeepsInv(rows: Rows, t: Transaction)
    requires Inv(rows)
    ensures Inv(Apply(rows, t))
  {
    match t
    case Create(input, id, productKnown, now, commit) =>
      if CreateGoesThrough(rows, input, id, productKnown) {
        CreateKeepsInv(rows, NormalCreate(input), id, productKnown, now);
      }
    case Update(input, now, commit) =>
      if UpdateGoesThrough(rows, input) {
        UpdateKeepsInv(rows, NormalUpdate(input), now);
      }
    case Delete(_, _, _) => FewerCurrent(rows, Apply(rows, t));
  }

  /** Over every run a product has at most one current model, it is published and valid, and publication is dated. */
  lemma {:induction false} RunKeepsInv(ts: seq<Transaction>)
    ensures Inv(Exec(ts))
  {
    if ts != [] {
      RunKeepsInv(ts[..|ts| - 1]);
      ApplyKeepsInv(Exec(ts[..|ts| - 1]), ts[|ts| - 1]);
    }
  }

  /** The same, field by field. */
  lemma StoredModelsExactly(ts: seq<Transaction>, i: string, j: string)
    requires i in Exec(ts) && j in Exec(ts)
    ensures
      var m, n := Exec(ts)[i], Exec(ts)[j];
      && i != ""
      && (m.status == "draft" || m.status == "published" || m.status == "deprecated")
      && (m.publishedAt.Some? <==> m.status == "published")
      && (m.isCurrent ==> m.status == "published")
      && ValidModel(m.content.properties, m.content.events, m.content.services)
      && (m.isCurrent && n.isCurrent && m.tenant == n.tenant && m.product == n.product ==> i == j)
  {
    RunKeepsInv(ts);
    var rows := Exec(ts);
    assert ModelFits(rows[i]);
    assert forall status :: status in STATUSES ==> status == "draft" || status == "published" || status == "deprecated";
    assert rows[j].isCurrent ==> CurrentOf(rows, rows[j].tenant, rows[j].product, j);
    assert rows[i].isCurrent ==> CurrentOf(rows, rows[i].tenant, rows[i].product, i);
  }

  /** Properties, and the outputs of all events and services. */
  ghost predicate ModelWellFormed(model: ThingsModel) {
    && AllWellFormed(model.properties)
    && (forall id :: id in model.events ==> AllWellFormed(model.events[id]))
    && (forall id :: id in model.services ==> AllWellFormed(model.services[id]))
  }

  /**
   * What the processor reads is determined and usable: the query for a product's current model has at
   * most one answer, and that answer parses into well-formed definitions.
   */
  lemma CurrentIsDeterminedAndParses(ts: seq<Transaction>, tenant: string, product: string, i: string, j: string,
      overflow: int)
    requires CurrentOf(Exec(ts), tenant, product, i) && CurrentOf(Exec(ts), tenant, product, j)
    ensures i == j
    ensures
      var c := Exec(ts)[i].content;
      && ModelParses(Object(c.properties), Some(Object(c.events)), Some(Object(c.services)))
      && ModelWellFormed(ParsedModel(Object(c.properties), Some(Object(c.events)), Some(Object(c.services)), overflow))
  {
    RunKeepsInv(ts);
    assert ModelFits(Exec(ts)[i]);
    var c := Exec(ts)[i].content;
    PublishedModelParses(c.properties, c.events, c.services, overflow);
  }

  // ----- what one transaction does to "current" -----

  /** A committed create or update that marks its row current makes it the only current one of its product. */
  lemma MarkedRowTakesOver(rows: Rows, t: Transaction, id: string)
    requires Inv(rows)
    requires
      match t
      case Create(input, newId, known, _, commit) =>
        CreateGoesThrough(rows, input, newId, known) && TookEffect(commit) && NormalCreate(input).isCurrent &&
            id == newId
      case Update(input, _, commit) =>
        UpdateGoesThrough(rows, input) && TookEffect(commit) && NormalUpdate(input).isCurrent &&
            id == NormalUpdate(input).id
      case Delete(_, _, _) => false
    ensures id in Apply(rows, t)
    ensures forall other :: CurrentOf(Apply(rows, t), Apply(rows, t)[id].tenant, Apply(rows, t)[id].product, other) <==>
        other == id
  {
    ApplyKeepsInv(rows, t);
    var after := Apply(rows, t);
    assert CurrentOf(after, after[id].tenant, after[id].product, id);
  }

  function ScopeOf(rows: Rows, t: Transaction): Option<(string, string)> {
    match t
    case Create(input, _, _, _, _) => Some((NormalCreate(input).tenant, NormalCreate(input).product))
    case Update(input, _, _) =>
      var id := NormalUpdate(input).id;
      if id in rows then Some((rows[id].tenant, rows[id].product)) else None
    case Delete(_, id, _) =>
      if TrimSpace(id) in rows then Some((rows[TrimSpace(id)].tenant, rows[TrimSpace(id)].product)) else None
  }

  /** No transaction touches the current model of another product. */
  lemma OtherProductsKeepCurrent(rows: Rows, t: Transaction, tenant: string, product: string, id: string)
    requires ScopeOf(rows, t) != Some((tenant, product))
    ensures CurrentOf(Apply(rows, t), tenant, product, id) <==> CurrentOf(rows, tenant, product, id)
    ensures CurrentOf(rows, tenant, product, id) ==> Apply(rows, t)[id] == rows[id]
  {
  }

  // ----- what goes in, and what is there afterwards -----

  /** A blank status means a draft. */
  lemma BlankStatusIsDraft(status: string)
    ensures NormalStatus(status) == "published" <==> TrimSpace(status) == "published"
    ensures NormalStatus(status) == "draft" <==> TrimSpace(status) == "" || TrimSpace(status) == "draft"
    ensures NormalStatus(status) == "deprecated" <==> TrimSpace(status) == "deprecated"
    ensures NormalStatus(status) in STATUSES <==>
            TrimSpace(status) == "" || TrimSpace(status) == "draft" || TrimSpace(status) == "published"
            || TrimSpace(status) == "deprecated"
  {
  }

  /** The caller's choices of status and mark, and the model itself. */
  ghost predicate Storable(status: string, isCurrent: bool, content: Content) {
    var s := TrimSpace(status);
    && (s == "" || s == "draft" || s == "published" || s == "deprecated")
    && (isCurrent ==> s == "published")
    && ValidModel(content.properties, content.events, content.services)
  }

  /** Exactly the creations that go through, in the caller's terms. */
  lemma CreationsExactly(rows: Rows, input: CreateInput, id: string, productKnown: bool)
    ensures
      CreateGoesThrough(rows, input, id, productKnown) <==>
      && TrimSpace(input.user) != "" && TrimSpace(input.tenant) != "" && TrimSpace(input.product) != ""
      && TrimSpace(input.name) != "" && input.version >= 1
      && Storable(input.status, input.isCurrent, input.content)
      && productKnown && id != "" && id !in rows
      && forall other :: other in rows ==>
           !(rows[other].tenant == TrimSpace(input.tenant) && rows[other].product == TrimSpace(input.product)
             && rows[other].version == input.version)
  {
    BlankStatusIsDraft(input.status);
  }

  /** Exactly the updates that go through, in the caller's terms. */
  lemma UpdatesExactly(rows: Rows, input: UpdateInput)
    ensures
      UpdateGoesThrough(rows, input) <==>
      && TrimSpace(input.user) != "" && TrimSpace(input.id) != "" && TrimSpace(input.name) != ""
      && Storable(input.status, input.isCurrent, input.content)
      && TrimSpace(input.id) in rows
  {
    BlankStatusIsDraft(input.status);
  }

  /** The other rows are those that were there, and differ at most in having lost the current mark. */
  predicate OthersKept(rows: Rows, after: Rows, id: string) {
    && after.Keys - {id} == rows.Keys - {id}
    && forall other :: other in rows && other in after && other != id ==>
         after[other] == rows[other] || after[other] == rows[other].(isCurrent := false)
  }

  /** The row a committed creation adds. */
  lemma CreatedRow(rows: Rows, input: CreateInput, id: string, productKnown: bool, now: int, commit: Outcome)
    requires CreateGoesThrough(rows, input, id, productKnown) && TookEffect(commit)
    ensures
      var after := Apply(rows, Transaction.Create(input, id, productKnown, now, commit));
      && after.Keys == rows.Keys + {id} && OthersKept(rows, after, id)
      && after[id].content == input.content
      && after[id].tenant == TrimSpace(input.tenant) && after[id].product == TrimSpace(input.product)
      && after[id].version == input.version && after[id].name == TrimSpace(input.name)
      && after[id].status == (if TrimSpace(input.status) == "" then "draft" else TrimSpace(input.status))
      && after[id].isCurrent == input.isCurrent
      && after[id].publishedAt == (if TrimSpace(input.status) == "published" then Some(now) else None)
  {
  }

  /**
   * The row a committed update leaves: what the caller gave, in the scope and version it had, with the
   * publication date kept while it stays published.
   */
  lemma UpdatedRow(rows: Rows, input: UpdateInput, now: int, commit: Outcome)
    requires UpdateGoesThrough(rows, input) && TookEffect(commit)
    ensures
      var id := TrimSpace(input.id);
      var after := Apply(rows, Transaction.Update(input, now, commit));
      && id in after && after.Keys == rows.Keys && OthersKept(rows, after, id)
      && after[id].content == input.content && after[id].name == TrimSpace(input.name)
      && after[id].status == (if TrimSpace(input.status) == "" then "draft" else TrimSpace(input.status))
      && after[id].isCurrent == input.isCurrent
      && after[id].tenant == rows[id].tenant && after[id].product == rows[id].product
      && after[id].version == rows[id].version
      && after[id].publishedAt ==
         (if TrimSpace(input.status) != "published" then None
          else if rows[id].publishedAt.Some? then rows[id].publishedAt
          else Some(now))
  {
  }

  /** A committed deletion removes the row and touches no other. */
  lemma DeletedRow(rows: Rows, user: string, id: string, commit: Outcome)
    requires TrimSpace(user) != "" && TrimSpace(id) != "" && TookEffect(commit)
    ensures
      var after := Apply(rows, Transaction.Delete(user, id, commit));
      TrimSpace(id) !in after && forall other :: other != TrimSpace(id) ==>
        (other in after <==> other in rows) && (other in rows ==> after[other] == rows[other])
  {
  }

  // ----- versions -----

  /** A product has each version once. */
  ghost predicate VersionsUnique(rows: Rows) {
    forall i, j :: i in rows && j in rows && SameVersion(rows[i], rows[j]) ==> i == j
  }

  predicate SameVersion(one: Model, other: Model) {
    one.tenant == other.tenant && one.product == other.product && one.version == other.version
  }

  lemma KeptVersionsStayUnique(rows: Rows, after: Rows)
    requires VersionsUnique(rows) && after.Keys <= rows.Keys
    requires forall id :: id in after ==> SameVersion(after[id], rows[id])
    ensures VersionsUnique(after)
  {
  }

  lemma CreationKeepsVersions(rows: Rows, input: CreateInput, id: string, productKnown: bool, now: int)
    requires VersionsUnique(rows) && CreateGoesThrough(rows, input, id, productKnown)
    ensures VersionsUnique(AfterCreate(rows, NormalCreate(input), id, now))
  {
    var n := NormalCreate(input);
    var after := AfterCreate(rows, n, id, now);
    forall i, j | i in after && j in after && SameVersion(after[i], after[j])
      ensures i == j
    {
      assert i in rows && i != id ==> SameVersion(after[i], rows[i]);
      assert j in rows && j != id ==> SameVersion(after[j], rows[j]);
      assert i in rows && i != id && j == id ==> VersionTaken(rows, n.tenant, n.product, n.version);
      assert j in rows && j != id && i == id ==> VersionTaken(rows, n.tenant, n.product, n.version);
    }
  }

  lemma ApplyKeepsVersions(rows: Rows, t: Transaction)
    requires VersionsUnique(rows)
    ensures VersionsUnique(Apply(rows, t))
  {
    match t
    case Create(input, id, productKnown, now, _) =>
      if CreateGoesThrough(rows, input, id, productKnown) {
        CreationKeepsVersions(rows, input, id, productKnown, now);
      }
    case Update(input, now, commit) =>
      if UpdateGoesThrough(rows, input) && TookEffect(commit) {
        UpdatedRow(rows, input, now, commit);
      }
      KeptVersionsStayUnique(rows, Apply(rows, t));
    case Delete(_, _, _) => KeptVersionsStayUnique(rows, Apply(rows, t));
  }

  /** Over every sequence of transactions. */
  lemma {:induction false} RunKeepsVersionsUnique(ts: seq<Transaction>)
    ensures VersionsUnique(Exec(ts))
  {
    if ts != [] {
      RunKeepsVersionsUnique(ts[..|ts| - 1]);
      ApplyKeepsVersions(Exec(ts[..|ts| - 1]), ts[|ts| - 1]);
    }
  }
}
