/** The Graylog REST API as the provisioning code sees it: three collections of titled
    entities. Any request may fail, and a failed request may or may not have been applied. */
module GraylogServer {
  import opened Wrappers

  /** Entity ids are opaque tokens handed out by the server; 0 stands for the empty
      string the code uses for "no such entity". */
  type Id = nat

  const NO_ID: Id := 0

  datatype Collection = IndexSets | Streams | Rules

  datatype Body =
    | IndexSetBody(asset: string, params: string)
    | StreamBody(indexSetId: Id)
    | RuleBody(asset: string, streamId: Id)
    | OtherBody(raw: string)

  datatype Entry = Entry(title: string, body: Body)

  type Table = map<Id, Entry>

  datatype Store = Store(indexSets: Table, streams: Table, rules: Table) {
    function Get(c: Collection): Table {
      match c
      case IndexSets => indexSets
      case Streams => streams
      case Rules => rules
    }

    function With(c: Collection, t: Table): Store {
      match c
      case IndexSets => this.(indexSets := t)
      case Streams => this.(streams := t)
      case Rules => this.(rules := t)
    }

    /** Stores `e` under `id`; both POST and PUT end here. */
    function Put(c: Collection, id: Id, e: Entry): Store {
      With(c, Get(c)[id := e])
    }

    /** Every id is non-empty and below `bound`. */
    ghost predicate IdsBelow(bound: Id) {
      && (forall id | id in indexSets :: NO_ID < id < bound)
      && (forall id | id in streams :: NO_ID < id < bound)
      && (forall id | id in rules :: NO_ID < id < bound)
    }
  }

  datatype Entity = Entity(id: Id, title: string)

  datatype Request =
    | Save(c: Collection, entry: Entry)
    | Resume(streamId: Id)

  /** A request together with what the server held when it arrived. */
  datatype Sent = Sent(request: Request, db: Store)

  function GetIdByTitle(values: seq<Entity>, title: string): (id: Id)
    ensures id != NO_ID ==> Entity(id, title) in values
    ensures id == NO_ID && NO_ID !in (set v | v in values :: v.id) ==> forall v | v in values :: v.title != title
  {
    if values == [] then NO_ID
    else if values[0].title == title then values[0].id
    else GetIdByTitle(values[1..], title)
  }

  /** The first entity with the title wins, even where a title occurs twice. */
  lemma {:induction false} FirstTitleWins(values: seq<Entity>, i: nat, title: string)
    requires i < |values| && values[i].title == title && forall j | 0 <= j < i :: values[j].title != title
    ensures GetIdByTitle(values, title) == values[i].id
  {
    if i > 0 {
      assert forall j | 0 <= j < i - 1 :: values[1..][j] == values[j + 1];
      FirstTitleWins(values[1..], i - 1, title);
    }
  }

  /** `es` is a complete listing of `t`. */
  ghost predicate Lists(es: seq<Entity>, t: Table) {
    && (forall e | e in es :: e.id in t && t[e.id].title == e.title)
    && (forall id | id in t :: Entity(id, t[id].title) in es)
  }

  class Server {
    var db: Store
    var nextId: Id
    ghost var sent: seq<Sent>
    ghost var failures: nat   // requests that failed for no reason the caller could see

    ghost predicate Valid()
      reads this
    {
      NO_ID < nextId && db.IdsBelow(nextId)
    }

    /** GET of a whole collection, in any order. */
    method List(c: Collection) returns (r: Option<seq<Entity>>)
      requires Valid()
      modifies `failures
      ensures failures >= old(failures) && (r.None? ==> failures > old(failures))
      ensures r.Some? ==> Lists(r.value, db.Get(c)) && forall e | e in r.value :: e.id != NO_ID
    {
      var ok: bool := *;
      if !ok {
        failures := failures + 1;
        return None;
      }
      var table, todo := db.Get(c), db.Get(c).Keys;
      var es: seq<Entity> := [];
      while todo != {}
        invariant todo <= table.Keys
        invariant forall e | e in es :: e.id in table && table[e.id].title == e.title
        invariant forall id | id in table && id !in todo :: Entity(id, table[id].title) in es
      {
        var id :| id in todo;
        todo := todo - {id};
        es := es + [Entity(id, table[id].title)];
      }
      r := Some(es);
    }

    /** POST: creates an entity under a fresh, non-empty id. */
    method Post(c: Collection, e: Entry) returns (ok: bool)
      requires Valid()
      modifies this
      ensures Valid()
      ensures sent == old(sent) + [Sent(Save(c, e), old(db))]
      ensures db == old(db).Put(c, old(nextId), e) || (db == old(db) && !ok)
      ensures failures >= old(failures) && (!ok ==> failures > old(failures))
    {
      sent := sent + [Sent(Save(c, e), db)];
      var applied: bool := *;
      ok := false;
      if applied {
        db := db.Put(c, nextId, e);
        nextId := nextId + 1;
        ok := *;
      }
      if !ok {
        failures := failures + 1;
      }
    }

    /** PUT: replaces an existing entity. */
    method Replace(c: Collection, id: Id, e: Entry) returns (ok: bool)
      requires Valid()
      modifies this
      ensures Valid()
      ensures sent == old(sent) + [Sent(Save(c, e), old(db))]
      ensures (id in old(db).Get(c) && db == old(db).Put(c, id, e)) || (db == old(db) && !ok)
      ensures failures >= old(failures) && (id in old(db).Get(c) && !ok ==> failures > old(failures))
    {
      sent := sent + [Sent(Save(c, e), db)];
      var applied: bool := *;
      ok := false;
      if applied && id in db.Get(c) {
        db := db.Put(c, id, e);
        ok := *;
      }
      if !ok {
        failures := failures + 1;
      }
    }

    /** POST streams/<id>/resume: succeeds only for an existing stream. */
    method ResumeStream(id: Id) returns (ok: bool)
      requires Valid()
      modifies this
      ensures Valid() && db == old(db)
      ensures sent == old(sent) + [Sent(Resume(id), old(db))]
      ensures ok ==> id in db.streams
      ensures failures >= old(failures) && (id in db.streams && !ok ==> failures > old(failures))
      ensures id !in db.streams ==> failures == old(failures)
    {
      sent := sent + [Sent(Resume(id), db)];
      var answered: bool := *;
      ok := answered && id in db.streams;
      if id in db.streams && !ok {
        failures := failures + 1;
      }
    }

    /** The requests of a stage that leaves index sets, streams and rules alone. */
    method OtherRequests() returns (ok: bool)
      requires Valid()
      modifies `failures
      ensures failures >= old(failures) && (!ok ==> failures > old(failures))
    {
      ok := *;
      if !ok {
        failures := failures + 1;
      }
    }
  }
}
