/** The time-limited definition cache of the three report validators, alone and under interleaved lookups. */
module DefinitionCache {
  import opened Wrappers
  import opened Text
  import opened Definition

  datatype Entry = Entry(definition: ThingsModel, expiresAt: int)

  type Cache = map<string, Entry>

  const KEY_SEPARATOR := '|'

  function CacheKey(tenant: string, product: string): string {
    Join(tenant, KEY_SEPARATOR, product)
  }

  predicate Hit(cache: Cache, key: string, now: int) {
    key in cache && now < cache[key].expiresAt
  }

  function Stored(cache: Cache, key: string, definition: ThingsModel, expiresAt: int): Cache {
    cache[key := Entry(definition, expiresAt)]
  }

  const DEFAULT_CACHE_TTL := 30000000000

  /**
   * One validator's cache. Times are in nanoseconds. `Check` and `Store` are the two critical
   * sections; the reader is called between them, without the lock.
   */
  class ReaderCache {
    const ttl: int
    var cache: Cache

    constructor (ttl: int)
      ensures this.ttl == if ttl > 0 then ttl else 30000000000
      ensures cache == map[]
    {
      this.ttl := if ttl <= 0 then DEFAULT_CACHE_TTL else ttl;
      this.cache := map[];
    }

    method Check(tenant: string, product: string, now: int) returns (found: Option<ThingsModel>)
      ensures found.Some? <==> Hit(cache, CacheKey(tenant, product), now)
      ensures found.Some? ==> found.value == cache[CacheKey(tenant, product)].definition
    {
      var key := CacheKey(tenant, product);
      if key in cache && now < cache[key].expiresAt {
        return Some(cache[key].definition);
      }
      return None;
    }

    method Store(tenant: string, product: string, definition: ThingsModel, now: int)
      modifies this`cache
      ensures cache == Stored(old(cache), CacheKey(tenant, product), definition, now + ttl)
    {
      cache := cache[CacheKey(tenant, product) := Entry(definition, now + ttl)];
    }

    /** A lookup nobody interleaves with: `answer` is what the reader says if it is asked. */
    method Lookup<E>(tenant: string, product: string, now: int, answer: Result<ThingsModel, E>, later: int)
      returns (r: Result<ThingsModel, E>)
      modifies this`cache
      ensures
        var key := CacheKey(tenant, product);
        if Hit(old(cache), key, now) then
          r == Success(old(cache)[key].definition) && cache == old(cache)
        else
          && r == answer
          && cache == if answer.Success? then Stored(old(cache), key, answer.value, later + ttl) else old(cache)
    {
      var found := Check(tenant, product, now);
      if found.Some? {
        return Success(found.value);
      }
      if answer.Failure? {
        return Failure(answer.error);
      }
      Store(tenant, product, answer.value, later);
      return answer;
    }
  }

  // ----- interleaved lookups -----

  datatype Lookup =
    | Started(tenant: string, product: string)
    | Reading(tenant: string, product: string)
    | Answered(tenant: string, product: string, model: ThingsModel, readAt: int)
    | Returned(tenant: string, product: string, model: ThingsModel, at: int)
    | Failed

  /** What the reader said, and when. */
  datatype Answer = Answer(tenant: string, product: string, model: ThingsModel, at: int)

  /** `maxGap` is the longest time so far between an answer of the reader and its storing. */
  datatype State = State(clock: int, cache: Cache, lookups: map<nat, Lookup>, answers: set<Answer>, maxGap: nat)

  datatype Action =
    | Tick(elapsed: nat)
    | Begin(id: nat, tenant: string, product: string)
    | CheckCache(id: nat)
    | Read(id: nat, model: Option<ThingsModel>)
    | StoreAnswer(id: nat)

  const START := State(0, map[], map[], {}, 0)

  /** The pairs of texts a reader may answer for; for any other it fails. */
  type Reader = (string, string) -> bool

  /** A text that PostgreSQL casts to a uuid has no other characters. */
  predicate UuidText(s: string) {
    forall c :: c in s ==> '0' <= c <= '9' || 'a' <= c <= 'f' || 'A' <= c <= 'F' || c in "-{}"
  }

  predicate HexDigit(c: char) {
    '0' <= c <= '9' || 'a' <= c <= 'f' || 'A' <= c <= 'F'
  }

  lemma HexDigitsExactly(c: char)
    ensures HexDigit(c) <==> c in "0123456789abcdefABCDEF"
    ensures UuidText([c]) <==> c in "0123456789abcdefABCDEF-{}"
  {
    assert forall d :: d in [c] <==> d == c;
    assert c in "-{}" <==> c == '-' || c == '{' || c == '}';
  }

  /** The usual spelling: groups of 8, 4, 4, 4 and 12 hexadecimal digits. */
  predicate UsualUuid(s: string) {
    && |s| == 36
    && forall i :: 0 <= i < 36 ==> if i == 8 || i == 13 || i == 18 || i == 23 then s[i] == '-' else HexDigit(s[i])
  }

  /** The reader may answer for any pair of uuids in the usual spelling. */
  lemma UsualUuidsAreRead(tenant: string, product: string)
    requires UsualUuid(tenant) && UsualUuid(product)
    ensures StoreReads(tenant, product)
  {
    assert '-' in "-{}";
  }

  /** The processor's reader casts tenant and product to uuids. */
  predicate StoreReads(tenant: string, product: string) {
    UuidText(tenant) && UuidText(product)
  }

  /** One atomic step; an action that is not possible changes nothing. */
  function Step(ttl: int, reader: Reader, s: State, a: Action): State {
    match a
    case Tick(elapsed) => s.(clock := s.clock + elapsed)
    case Begin(id, tenant, product) =>
      if id in s.lookups then s else s.(lookups := s.lookups[id := Started(tenant, product)])
    case CheckCache(id) =>
      if id !in s.lookups || !s.lookups[id].Started? then s
      else
        var Started(tenant, product) := s.lookups[id];
        var key := CacheKey(tenant, product);
        if Hit(s.cache, key, s.clock) then
          s.(lookups := s.lookups[id := Returned(tenant, product, s.cache[key].definition, s.clock)])
        else
          s.(lookups := s.lookups[id := Reading(tenant, product)])
    case Read(id, model) =>
      if id !in s.lookups || !s.lookups[id].Reading? then s
      else
        var Reading(tenant, product) := s.lookups[id];
        if model.None? || !reader(tenant, product) then s.(lookups := s.lookups[id := Failed])
        else
          s.(lookups := s.lookups[id := Answered(tenant, product, model.value, s.clock)],
             answers := s.answers + {Answer(tenant, product, model.value, s.clock)})
    case StoreAnswer(id) =>
      if id !in s.lookups || !s.lookups[id].Answered? then s
      else
        var Answered(tenant, product, model, readAt) := s.lookups[id];
        var gap := s.clock - readAt;
        s.(cache := Stored(s.cache, CacheKey(tenant, product), model, s.clock + ttl),
           lookups := s.lookups[id := Returned(tenant, product, model, s.clock)],
           maxGap := if gap > s.maxGap then gap else s.maxGap)
  }

  function Exec(ttl: int, reader: Reader, acts: seq<Action>): State {
    if acts == [] then START else Step(ttl, reader, Exec(ttl, reader, acts[..|acts| - 1]), acts[|acts| - 1])
  }

  /** The reader never answers for a part that holds the separator. */
  ghost predicate Sealed(reader: Reader) {
    forall tenant, product :: reader(tenant, product) ==> KEY_SEPARATOR !in tenant && KEY_SEPARATOR !in product
  }

  /** The reader gave `model` for this very pair later than `floor` and not after `until`. */
  ghost predicate AnsweredWithin(s: State, tenant: string, product: string, model: ThingsModel, floor: int,
      until: int)
  {
    exists a :: a in s.answers && a.tenant == tenant && a.product == product && a.model == model &&
        floor < a.at <= until
  }

  ghost predicate PastAnswers(s: State) {
    forall a :: a in s.answers ==> a.at <= s.clock && KEY_SEPARATOR !in a.tenant && KEY_SEPARATOR !in a.product
  }

  ghost predicate CacheFresh(ttl: int, s: State) {
    forall key :: key in s.cache ==> exists a ::
      && a in s.answers
      && CacheKey(a.tenant, a.product) == key
      && a.model == s.cache[key].definition
      && a.at + s.maxGap + ttl >= s.cache[key].expiresAt
  }

  ghost predicate LookupFresh(ttl: int, s: State, lookup: Lookup) {
    && (lookup.Answered? ==> Answer(lookup.tenant, lookup.product, lookup.model, lookup.readAt) in s.answers)
    && (lookup.Returned? ==>
         AnsweredWithin(s, lookup.tenant, lookup.product, lookup.model, lookup.at - ttl - s.maxGap, lookup.at))
  }

  ghost predicate LookupsFresh(ttl: int, s: State) {
    forall id :: id in s.lookups ==> LookupFresh(ttl, s, s.lookups[id])
  }

  ghost predicate Inv(ttl: int, s: State) {
    PastAnswers(s) && CacheFresh(ttl, s) && LookupsFresh(ttl, s)
  }

  /** A lookup stays fresh while answers and the longest gap only grow. */
  lemma FreshnessKept(ttl: int, s: State, t: State, lookup: Lookup)
    requires LookupFresh(ttl, s, lookup) && s.answers <= t.answers && s.maxGap <= t.maxGap
    ensures LookupFresh(ttl, t, lookup)
  {
    if lookup.Returned? {
      var a :| a in s.answers && a.tenant == lookup.tenant && a.product == lookup.product
               && a.model == lookup.model && lookup.at - ttl - s.maxGap < a.at <= lookup.at;
      assert a in t.answers;
    }
  }

  lemma CheckKeepsInv(ttl: int, reader: Reader, s: State, id: nat)
    requires ttl > 0 && Inv(ttl, s)
    ensures Inv(ttl, Step(ttl, reader, s, CheckCache(id)))
  {
    var t := Step(ttl, reader, s, CheckCache(id));
    if id in s.lookups && s.lookups[id].Started? {
      assert LookupFresh(ttl, s, s.lookups[id]);
      var Started(tenant, product) := s.lookups[id];
      var key := CacheKey(tenant, product);
      if Hit(s.cache, key, s.clock) {
        var a :| a in s.answers && CacheKey(a.tenant, a.product) == key && a.model == s.cache[key].definition
                 && a.at + s.maxGap + ttl >= s.cache[key].expiresAt;
        JoinDetermines(a.tenant, a.product, KEY_SEPARATOR, tenant, product);
      }
      assert LookupFresh(ttl, t, t.lookups[id]);
    }
    forall other | other in t.lookups && other != id
      ensures LookupFresh(ttl, t, t.lookups[other])
    {
      FreshnessKept(ttl, s, t, s.lookups[other]);
    }
  }

  lemma StoreKeepsInv(ttl: int, reader: Reader, s: State, id: nat)
    requires ttl > 0 && Inv(ttl, s)
    ensures Inv(ttl, Step(ttl, reader, s, StoreAnswer(id)))
  {
    var t := Step(ttl, reader, s, StoreAnswer(id));
    if id in s.lookups && s.lookups[id].Answered? {
      assert LookupFresh(ttl, s, s.lookups[id]);
      var Answered(tenant, product, model, readAt) := s.lookups[id];
      var a := Answer(tenant, product, model, readAt);
      assert a in t.answers && a.at > t.clock - ttl - t.maxGap;
      assert AnsweredWithin(t, tenant, product, model, t.clock - ttl - t.maxGap, t.clock);
      assert LookupFresh(ttl, t, t.lookups[id]);
      forall key | key in t.cache
        ensures exists b ::
          b in t.answers && CacheKey(b.tenant, b.product) == key && b.model == t.cache[key].definition
          && b.at + t.maxGap + ttl >= t.cache[key].expiresAt
      {
        if key == CacheKey(tenant, product) {
          assert a.at + t.maxGap + ttl >= t.cache[key].expiresAt;
        } else {
          var b :| b in s.answers && CacheKey(b.tenant, b.product) == key && b.model == s.cache[key].definition
                   && b.at + s.maxGap + ttl >= s.cache[key].expiresAt;
          assert b in t.answers;
        }
      }
    }
    forall other | other in t.lookups && other != id
      ensures LookupFresh(ttl, t, t.lookups[other])
    {
      FreshnessKept(ttl, s, t, s.lookups[other]);
    }
  }

  lemma OtherStepsKeepInv(ttl: int, reader: Reader, s: State, a: Action)
    requires ttl > 0 && Sealed(reader) && Inv(ttl, s) && (a.Tick? || a.Begin? || a.Read?)
    ensures Inv(ttl, Step(ttl, reader, s, a))
  {
    var t := Step(ttl, reader, s, a);
    forall key | key in t.cache
      ensures exists b ::
        b in t.answers && CacheKey(b.tenant, b.product) == key && b.model == t.cache[key].definition
        && b.at + t.maxGap + ttl >= t.cache[key].expiresAt
    {
      var b :| b in s.answers && CacheKey(b.tenant, b.product) == key && b.model == s.cache[key].definition
               && b.at + s.maxGap + ttl >= s.cache[key].expiresAt;
      assert b in t.answers;
    }
    forall id | id in t.lookups
      ensures LookupFresh(ttl, t, t.lookups[id])
    {
      if id in s.lookups {
        FreshnessKept(ttl, s, t, s.lookups[id]);
      }
    }
  }

  lemma {:induction false} RunsKeepInv(ttl: int, reader: Reader, acts: seq<Action>)
    requires ttl > 0 && Sealed(reader)
    ensures Inv(ttl, Exec(ttl, reader, acts))
  {
    if acts != [] {
      var before, a := acts[..|acts| - 1], acts[|acts| - 1];
      RunsKeepInv(ttl, reader, before);
      var s := Exec(ttl, reader, before);
      match a
      case CheckCache(id) => CheckKeepsInv(ttl, reader, s, id);
      case StoreAnswer(id) => StoreKeepsInv(ttl, reader, s, id);
      case _ => OtherStepsKeepInv(ttl, reader, s, a);
    }
  }

  /**
   * However lookups interleave, and whatever texts they carry, what one returns for a tenant and product
   * is what the reader answered for that tenant and product less than the time to live plus the longest
   * gap ago.
   */
  lemma ReturnedDefinitionsAreRecent(ttl: int, acts: seq<Action>, id: nat)
    requires ttl > 0
    requires
      var s := Exec(ttl, StoreReads, acts);
      id in s.lookups && s.lookups[id].Returned?
    ensures
      var s := Exec(ttl, StoreReads, acts);
      var l := s.lookups[id];
      AnsweredWithin(s, l.tenant, l.product, l.model, l.at - ttl - s.maxGap, l.at)
  {
    RunsKeepInv(ttl, StoreReads, acts);
    assert LookupFresh(ttl, Exec(ttl, StoreReads, acts), Exec(ttl, StoreReads, acts).lookups[id]);
  }

  // ----- what the record of answers and gaps means -----

  /** The reader gave this answer at this step. */
  ghost predicate Gave(reader: Reader, s: State, a: Action, answer: Answer) {
    && a.Read? && a.model == Some(answer.model) && s.clock == answer.at
    && a.id in s.lookups && s.lookups[a.id] == Reading(answer.tenant, answer.product)
    && reader(answer.tenant, answer.product)
  }

  lemma {:induction false} AnswersWereGiven(ttl: int, reader: Reader, acts: seq<Action>, answer: Answer)
    requires answer in Exec(ttl, reader, acts).answers
    ensures exists k :: 0 <= k < |acts| && Gave(reader, Exec(ttl, reader, acts[..k]), acts[k], answer)
  {
    var n := |acts| - 1;
    var before := acts[..n];
    if answer in Exec(ttl, reader, before).answers {
      AnswersWereGiven(ttl, reader, before, answer);
      var k :| 0 <= k < n && Gave(reader, Exec(ttl, reader, before[..k]), before[k], answer);
      assert before[..k] == acts[..k];
    } else {
      assert Gave(reader, Exec(ttl, reader, acts[..n]), acts[n], answer);
    }
  }

  /** This step stored an answer that was `gap` old. */
  ghost predicate StoredAfter(s: State, a: Action, gap: nat) {
    a.StoreAnswer? && a.id in s.lookups && s.lookups[a.id].Answered? && s.clock - s.lookups[a.id].readAt == gap
  }

  lemma {:induction false} LongestGapWasMet(ttl: int, reader: Reader, acts: seq<Action>)
    ensures
      var gap := Exec(ttl, reader, acts).maxGap;
      gap == 0 || exists k :: 0 <= k < |acts| && StoredAfter(Exec(ttl, reader, acts[..k]), acts[k], gap)
  {
    if acts != [] {
      var n := |acts| - 1;
      var before, gap := acts[..n], Exec(ttl, reader, acts).maxGap;
      if Exec(ttl, reader, before).maxGap == gap {
        LongestGapWasMet(ttl, reader, before);
        if k :| 0 <= k < n && StoredAfter(Exec(ttl, reader, before[..k]), before[k], gap) {
          assert before[..k] == acts[..k];
        }
      } else {
        assert StoredAfter(Exec(ttl, reader, acts[..n]), acts[n], gap);
      }
    }
  }

  /** A lookup nobody interleaves with is a run of the machine, and leaves what the method `Lookup` says. */
  lemma LookupIsARun(ttl: int, reader: Reader, s: State, id: nat, answer: Option<ThingsModel>, elapsed: nat)
    requires id in s.lookups && s.lookups[id].Started? && reader(s.lookups[id].tenant, s.lookups[id].product)
    ensures
      var Started(tenant, product) := s.lookups[id];
      var key := CacheKey(tenant, product);
      var asked := Step(ttl, reader, Step(ttl, reader, s, CheckCache(id)), Read(id, answer));
      var t := Step(ttl, reader, Step(ttl, reader, asked, Tick(elapsed)), StoreAnswer(id));
      && id in t.lookups
      && if Hit(s.cache, key, s.clock) then
           t.cache == s.cache && t.lookups[id] == Returned(tenant, product, s.cache[key].definition, s.clock)
         else if answer.None? then t.cache == s.cache && t.lookups[id] == Failed
         else
           && t.cache == Stored(s.cache, key, answer.value, s.clock + elapsed + ttl)
           && t.lookups[id] == Returned(tenant, product, answer.value, s.clock + elapsed)
  {
  }

  // ----- what the sealing is needed for -----

  /** What the lookup returned, if it did, was answered for its own tenant and product. */
  ghost predicate ReturnedIsOwn(s: State, id: nat) {
    id in s.lookups && s.lookups[id].Returned? ==>
      exists a :: a in s.answers && a.tenant == s.lookups[id].tenant && a.product == s.lookups[id].product
                  && a.model == s.lookups[id].model
  }

  /** In no run is a tenant served what was only answered for another pair. */
  ghost predicate KeepsPairsApart(ttl: int, reader: Reader) {
    forall acts, id :: ReturnedIsOwn(Exec(ttl, reader, acts), id)
  }

  /**
   * Exactly the sealed readers keep pairs apart: a single answer for a part with a separator can reach another
   * pair.
   */
  lemma PairsStayApartExactly(ttl: int, reader: Reader)
    requires ttl > 0
    ensures KeepsPairsApart(ttl, reader) <==> Sealed(reader)
  {
    if Sealed(reader) {
      forall acts, id
        ensures ReturnedIsOwn(Exec(ttl, reader, acts), id)
      {
        RunsKeepInv(ttl, reader, acts);
        var s := Exec(ttl, reader, acts);
        assert id in s.lookups ==> LookupFresh(ttl, s, s.lookups[id]);
      }
    } else {
      var tenant, product :| reader(tenant, product) && (KEY_SEPARATOR in tenant || KEY_SEPARATOR in product);
      var acts := SharedKeyMixesPairs(ttl, reader, tenant, product);
      assert !ReturnedIsOwn(Exec(ttl, reader, acts), 1);
    }
  }

  lemma ExecAppend(ttl: int, reader: Reader, acts: seq<Action>, a: Action)
    ensures Exec(ttl, reader, acts + [a]) == Step(ttl, reader, Exec(ttl, reader, acts), a)
  {
    assert (acts + [a])[..|acts|] == acts;
  }

  /** The first lookup of a run puts the answer it is given into the cache. */
  lemma FirstLookupStores(ttl: int, reader: Reader, a: string, b: string, model: ThingsModel)
    requires ttl > 0 && reader(a, b)
    ensures
      var s1 := Step(ttl, reader, START, Begin(0, a, b));
      var s2 := Step(ttl, reader, s1, CheckCache(0));
      var s3 := Step(ttl, reader, s2, Read(0, Some(model)));
      Step(ttl, reader, s3, StoreAnswer(0)) ==
      State(
        0, map[CacheKey(a, b) := Entry(model, ttl)], map[0 := Returned(a, b, model, 0)], {Answer(a, b, model, 0)}, 0)
  {
    var s1 := START.(lookups := map[0 := Started(a, b)]);
    var s2 := s1.(lookups := map[0 := Reading(a, b)]);
    assert Step(ttl, reader, START, Begin(0, a, b)) == s1;
    assert Step(ttl, reader, s1, CheckCache(0)) == s2;
  }

  lemma SharedKeyMixesPairs(ttl: int, reader: Reader, a: string, b: string) returns (acts: seq<Action>)
    requires ttl > 0 && reader(a, b) && (KEY_SEPARATOR in a || KEY_SEPARATOR in b)
    ensures !ReturnedIsOwn(Exec(ttl, reader, acts), 1)
  {
    var c, d := JoinSplitsTwice(a, b, KEY_SEPARATOR);
    var model := ThingsModel(map[], map[], map[]);
    var p1 := [] + [Begin(0, a, b)];
    var p2 := p1 + [CheckCache(0)];
    var p3 := p2 + [Read(0, Some(model))];
    var p4 := p3 + [StoreAnswer(0)];
    var p5 := p4 + [Begin(1, c, d)];
    ExecAppend(ttl, reader, [], Begin(0, a, b));
    ExecAppend(ttl, reader, p1, CheckCache(0));
    ExecAppend(ttl, reader, p2, Read(0, Some(model)));
    ExecAppend(ttl, reader, p3, StoreAnswer(0));
    ExecAppend(ttl, reader, p4, Begin(1, c, d));
    ExecAppend(ttl, reader, p5, CheckCache(1));
    FirstLookupStores(ttl, reader, a, b, model);
    acts := p5 + [CheckCache(1)];
    var s := Exec(ttl, reader, acts);
    assert s.answers == {Answer(a, b, model, 0)} && s.lookups[1] == Returned(c, d, model, 0);
  }
}
