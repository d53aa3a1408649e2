/**
 * `run_lists_connector`: fetch, parse and insert each configured list in turn,
 * skipping the lists whose fetch fails, and add up the inserted counts.
 */
module Connector {
  import opened Wrappers
  import opened Text
  import opened Fetcher
  import opened Parser
  import opened Loader

  const ConnectorName: string := "blocklist_lists"

  /** The one-second pause after each list that was fetched. */
  const PoliteDelay: Sleep := Fixed(1)

  /**
   * The tunables read from the environment that the run depends on: MONGO_URI,
   * MONGO_DB (`DefaultDatabase` when unset) and MAX_RETRIES.
   */
  datatype Config = Config(mongoUri: Option<string>, mongoDb: Option<string>, maxRetries: int)

  /** One entry of the endpoint table: a service name and its URL. */
  datatype Endpoint = Endpoint(service: string, url: string)

  /** What the outside world does for one endpoint: the GET outcomes, the clock reading, the store's reply. */
  datatype World = World(responses: seq<Outcome>, now: int, reply: StoreReply)

  /** An endpoint of the table, in table order, together with what happens when it is visited. */
  datatype Visit = Visit(endpoint: Endpoint, world: World)

  datatype Event =
    | Slept(delay: Sleep)
    | FetchFailed(service: string, error: FetchError)
    | Submitted(collection: string, batch: seq<Record>)

  /** The running total and the events so far. */
  datatype Progress = Progress(total: nat, events: seq<Event>)

  function SleepEvents(sleeps: seq<Sleep>): (es: seq<Event>)
    ensures |es| == |sleeps|
    ensures forall k :: 0 <= k < |es| ==> es[k] == Slept(sleeps[k])
  {
    if sleeps == [] then [] else [Slept(sleeps[0])] + SleepEvents(sleeps[1..])
  }

  /** The records a visit hands to `safe_insert_many`: none when its fetch failed. */
  function BatchOf(v: Visit, maxRetries: int, valid: string -> bool): seq<Record> {
    match Fetch(v.world.responses, maxRetries).result
    case Raised(_) => []
    case Returned(body) => ParseLines(SplitLines(body), v.endpoint.service, v.world.now, valid)
  }

  /** One iteration of the endpoint loop. */
  function VisitStep(v: Visit, collection: string, maxRetries: int, valid: string -> bool): Progress {
    var t := Fetch(v.world.responses, maxRetries);
    var slept := SleepEvents(t.sleeps);
    match t.result
    case Raised(e) => Progress(0, slept + [FetchFailed(v.endpoint.service, e)])
    case Returned(body) =>
      var docs := ParseLines(SplitLines(body), v.endpoint.service, v.world.now, valid);
      var ins := SafeInsertMany(docs, v.world.reply);
      Progress(ins.count, slept + (if ins.submitted then [Submitted(collection, docs)] else []) + [Slept(PoliteDelay)])
  }

  function Then(p: Progress, q: Progress): Progress {
    Progress(p.total + q.total, p.events + q.events)
  }

  /** The endpoint loop over `visits`, in order. */
  function RunVisits(visits: seq<Visit>, collection: string, maxRetries: int, valid: string -> bool): Progress {
    if visits == [] then Progress(0, [])
    else Then(RunVisits(visits[..|visits| - 1], collection, maxRetries, valid),
              VisitStep(visits[|visits| - 1], collection, maxRetries, valid))
  }

  /** The whole run: the collection lookup first, then the endpoint loop. */
  function Run(config: Config, visits: seq<Visit>, valid: string -> bool): Result<Progress, ConfigError> {
    match GetMongoCollection(config.mongoUri, config.mongoDb.GetOr(DefaultDatabase), ConnectorName)
    case Err(e) => Err(e)
    case Ok(c) => Ok(RunVisits(visits, c.name, config.maxRetries, valid))
  }

  /** `run_lists_connector()` over the endpoint table `visits`. */
  method RunListsConnector(config: Config, visits: seq<Visit>, valid: string -> bool) returns (r: Result<Progress, ConfigError>)
    ensures r == Run(config, visits, valid)
  {
    var found := GetMongoCollection(config.mongoUri, config.mongoDb.GetOr(DefaultDatabase), ConnectorName);
    if found.Err? {
      return Err(found.error);
    }
    var collection := found.value;
    var total: nat := 0;
    var events: seq<Event> := [];
    for i := 0 to |visits|
      invariant Progress(total, events) == RunVisits(visits[..i], collection.name, config.maxRetries, valid)
    {
      assert RunVisits(visits[..i + 1], collection.name, config.maxRetries, valid)
        == Then(Progress(total, events), VisitStep(visits[i], collection.name, config.maxRetries, valid)) by {
        assert visits[..i + 1][..i] == visits[..i];
      }
      ghost var before := events;
      ghost var step := VisitStep(visits[i], collection.name, config.maxRetries, valid);
      var service := visits[i].endpoint.service;
      var world := visits[i].world;
      var result, sleeps, gets := SafeGet(world.responses, config.maxRetries);
      events := events + SleepEvents(sleeps);
      if result.Raised? {
        events := events + [FetchFailed(service, result.error)];
        assert step == Progress(0, SleepEvents(sleeps) + [FetchFailed(service, result.error)]);
        assert events == before + step.events;
        continue;
      }
      var docs := ParseIpList(result.body, service, world.now, valid);
      var inserted := SafeInsertMany(docs, world.reply);
      ghost var own := SleepEvents(sleeps);
      if inserted.submitted {
        SeqAppendAssoc(before, own, [Submitted(collection.name, docs)]);
        events := events + [Submitted(collection.name, docs)];
        own := own + [Submitted(collection.name, docs)];
      }
      total := total + inserted.count;
      SeqAppendAssoc(before, own, [Slept(PoliteDelay)]);
      events := events + [Slept(PoliteDelay)];
      own := own + [Slept(PoliteDelay)];
      assert step == Progress(inserted.count, own);
    }
    assert visits[..|visits|] == visits;
    r := Ok(Progress(total, events));
  }

  lemma SeqAppendAssoc(a: seq<Event>, b: seq<Event>, c: seq<Event>)
    ensures a + b + c == a + (b + c)
  {
  }

  // ---------------------------------------------------------------------------
  // Properties

  /** A missing or empty MONGO_URI ends the run before any endpoint is visited. */
  lemma MissingUriIsFatal(config: Config, visits: seq<Visit>, valid: string -> bool)
    requires config.mongoUri.None? || config.mongoUri.value == ""
    ensures Run(config, visits, valid) == Err(MongoUriNotSet)
  {
  }

  lemma RunVisitsSnoc(visits: seq<Visit>, v: Visit, collection: string, maxRetries: int, valid: string -> bool)
    ensures RunVisits(visits + [v], collection, maxRetries, valid) ==
      Then(RunVisits(visits, collection, maxRetries, valid), VisitStep(v, collection, maxRetries, valid))
  {
    assert (visits + [v])[..|visits|] == visits;
  }

  lemma ThenAssoc(p: Progress, q: Progress, r: Progress)
    ensures Then(Then(p, q), r) == Then(p, Then(q, r))
  {
    assert p.events + q.events + r.events == p.events + (q.events + r.events);
  }

  /** The loop is a fold: visiting `a` and then `b` adds their totals and concatenates their events. */
  lemma {:induction false} RunVisitsAppend(a: seq<Visit>, b: seq<Visit>, collection: string, maxRetries: int, valid: string -> bool)
    ensures RunVisits(a + b, collection, maxRetries, valid) ==
      Then(RunVisits(a, collection, maxRetries, valid), RunVisits(b, collection, maxRetries, valid))
    decreases |b|
  {
    if b == [] {
      assert a + b == a;
    } else {
      var b', v := b[..|b| - 1], b[|b| - 1];
      assert a + b == (a + b') + [v];
      assert b == b' + [v];
      calc {
        RunVisits(a + b, collection, maxRetries, valid);
        == { RunVisitsSnoc(a + b', v, collection, maxRetries, valid); }
        Then(RunVisits(a + b', collection, maxRetries, valid), VisitStep(v, collection, maxRetries, valid));
        == { RunVisitsAppend(a, b', collection, maxRetries, valid); }
        Then(Then(RunVisits(a, collection, maxRetries, valid), RunVisits(b', collection, maxRetries, valid)),
             VisitStep(v, collection, maxRetries, valid));
        == { ThenAssoc(RunVisits(a, collection, maxRetries, valid), RunVisits(b', collection, maxRetries, valid),
                       VisitStep(v, collection, maxRetries, valid)); }
        Then(RunVisits(a, collection, maxRetries, valid),
             Then(RunVisits(b', collection, maxRetries, valid), VisitStep(v, collection, maxRetries, valid)));
        == { RunVisitsSnoc(b', v, collection, maxRetries, valid); }
        Then(RunVisits(a, collection, maxRetries, valid), RunVisits(b, collection, maxRetries, valid));
      }
    }
  }

  /** The visit count `safe_insert_many` returned, or 0 for a visit whose fetch failed. */
  function InsertedBy(v: Visit, maxRetries: int, valid: string -> bool): nat {
    match Fetch(v.world.responses, maxRetries).result
    case Raised(_) => 0
    case Returned(_) => SafeInsertMany(BatchOf(v, maxRetries, valid), v.world.reply).count
  }

  function SumInserted(visits: seq<Visit>, maxRetries: int, valid: string -> bool): nat {
    if visits == [] then 0 else InsertedBy(visits[0], maxRetries, valid) + SumInserted(visits[1..], maxRetries, valid)
  }

  /** The total is the sum, over the visits in table order, of what each visit inserted. */
  lemma {:induction false} TotalIsSumOfInserted(visits: seq<Visit>, collection: string, maxRetries: int, valid: string -> bool)
    ensures RunVisits(visits, collection, maxRetries, valid).total == SumInserted(visits, maxRetries, valid)
    decreases |visits|
  {
    if visits != [] {
      assert visits == [visits[0]] + visits[1..];
      RunVisitsAppend([visits[0]], visits[1..], collection, maxRetries, valid);
      TotalIsSumOfInserted(visits[1..], collection, maxRetries, valid);
      assert [visits[0]][..0] == [];
    }
  }

  /** A visit whose fetch raised adds nothing and submits nothing. */
  lemma FailedVisitStep(v: Visit, collection: string, maxRetries: int, valid: string -> bool)
    requires Fetch(v.world.responses, maxRetries).result.Raised?
    ensures VisitStep(v, collection, maxRetries, valid).total == 0
    ensures forall k :: 0 <= k < |VisitStep(v, collection, maxRetries, valid).events| ==>
      !VisitStep(v, collection, maxRetries, valid).events[k].Submitted?
  {
  }

  /** A visit whose fetch raised adds nothing and submits nothing; the other visits are unaffected. */
  lemma FailedFetchIsSkipped(a: seq<Visit>, v: Visit, b: seq<Visit>, collection: string, maxRetries: int, valid: string -> bool)
    requires Fetch(v.world.responses, maxRetries).result.Raised?
    ensures VisitStep(v, collection, maxRetries, valid).total == 0
    ensures forall k :: 0 <= k < |VisitStep(v, collection, maxRetries, valid).events| ==>
      !VisitStep(v, collection, maxRetries, valid).events[k].Submitted?
    ensures RunVisits(a + [v] + b, collection, maxRetries, valid).total == RunVisits(a + b, collection, maxRetries, valid).total
  {
    FailedVisitStep(v, collection, maxRetries, valid);
    var ta := RunVisits(a, collection, maxRetries, valid).total;
    var tb := RunVisits(b, collection, maxRetries, valid).total;
    assert RunVisits([v], collection, maxRetries, valid).total == 0 by {
      assert [v][..0] == [];
    }
    assert RunVisits(a + [v], collection, maxRetries, valid).total == ta by {
      RunVisitsAppend(a, [v], collection, maxRetries, valid);
    }
    assert RunVisits(a + [v] + b, collection, maxRetries, valid).total == ta + tb by {
      RunVisitsAppend(a + [v], b, collection, maxRetries, valid);
    }
    assert RunVisits(a + b, collection, maxRetries, valid).total == ta + tb by {
      RunVisitsAppend(a, b, collection, maxRetries, valid);
    }
  }

  /** What every submitted batch looks like: one endpoint's records, never merged with another's. */
  predicate WellFormedSubmissions(events: seq<Event>, collection: string, visits: seq<Visit>, maxRetries: int, valid: string -> bool) {
    forall k :: 0 <= k < |events| && events[k].Submitted? ==>
      && events[k].collection == collection
      && exists v :: v in visits && events[k].batch == BatchOf(v, maxRetries, valid) && events[k].batch != []
  }

  lemma VisitSubmissions(v: Visit, collection: string, maxRetries: int, valid: string -> bool)
    ensures WellFormedSubmissions(VisitStep(v, collection, maxRetries, valid).events, collection, [v], maxRetries, valid)
  {
    var t := Fetch(v.world.responses, maxRetries);
    var es := VisitStep(v, collection, maxRetries, valid).events;
    forall k | 0 <= k < |es| && es[k].Submitted?
      ensures es[k].collection == collection && es[k].batch == BatchOf(v, maxRetries, valid) && es[k].batch != []
    {
      assert k >= |t.sleeps|;
    }
  }

  /**
   * Every `insert_many` call goes to `<connector>_raw` with the non-empty batch
   * of exactly one visited endpoint.
   */
  lemma {:induction false} SubmissionsAreWholeBatches(visits: seq<Visit>, collection: string, maxRetries: int, valid: string -> bool)
    ensures WellFormedSubmissions(RunVisits(visits, collection, maxRetries, valid).events, collection, visits, maxRetries, valid)
    decreases |visits|
  {
    if visits != [] {
      var init := visits[..|visits| - 1];
      var last := visits[|visits| - 1];
      SubmissionsAreWholeBatches(init, collection, maxRetries, valid);
      VisitSubmissions(last, collection, maxRetries, valid);
      var p := RunVisits(init, collection, maxRetries, valid).events;
      var s := VisitStep(last, collection, maxRetries, valid).events;
      var es := p + s;
      forall k | 0 <= k < |es| && es[k].Submitted?
        ensures es[k].collection == collection
        ensures exists v :: v in visits && es[k].batch == BatchOf(v, maxRetries, valid) && es[k].batch != []
      {
        if k < |p| {
          assert es[k] == p[k];
          var v :| v in init && p[k].batch == BatchOf(v, maxRetries, valid) && p[k].batch != [];
          assert v in visits;
        } else {
          assert es[k] == s[k - |p|];
          assert last in visits;
        }
      }
    }
  }

  /** The store's reply for each visit is plausible for that visit's batch. */
  predicate PlausibleReplies(visits: seq<Visit>, maxRetries: int, valid: string -> bool) {
    forall k :: 0 <= k < |visits| ==> Plausible(visits[k].world.reply, |BatchOf(visits[k], maxRetries, valid)|)
  }

  function SumBatches(visits: seq<Visit>, maxRetries: int, valid: string -> bool): nat {
    if visits == [] then 0 else |BatchOf(visits[0], maxRetries, valid)| + SumBatches(visits[1..], maxRetries, valid)
  }

  /** With plausible replies the run never reports more insertions than records it parsed. */
  lemma {:induction false} TotalWithinParsed(visits: seq<Visit>, collection: string, maxRetries: int, valid: string -> bool)
    requires PlausibleReplies(visits, maxRetries, valid)
    ensures RunVisits(visits, collection, maxRetries, valid).total <= SumBatches(visits, maxRetries, valid)
  {
    TotalIsSumOfInserted(visits, collection, maxRetries, valid);
    InsertedWithinBatches(visits, maxRetries, valid);
  }

  lemma {:induction false} InsertedWithinBatches(visits: seq<Visit>, maxRetries: int, valid: string -> bool)
    requires PlausibleReplies(visits, maxRetries, valid)
    ensures SumInserted(visits, maxRetries, valid) <= SumBatches(visits, maxRetries, valid)
    decreases |visits|
  {
    if visits != [] {
      var v := visits[0];
      InsertedWithinBatch(BatchOf(v, maxRetries, valid), v.world.reply);
      assert PlausibleReplies(visits[1..], maxRetries, valid) by {
        forall k | 0 <= k < |visits[1..]|
          ensures Plausible(visits[1..][k].world.reply, |BatchOf(visits[1..][k], maxRetries, valid)|)
        {
          assert visits[1..][k] == visits[k + 1];
        }
      }
      InsertedWithinBatches(visits[1..], maxRetries, valid);
    }
  }
}
