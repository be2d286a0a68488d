/** The sink factory of programs/saas-services/bb-monitor-ingestion-srv/kafka_sink_facory.cpp, which updates its map
    of sinks in place. */
module SinkFactory {
  import opened Authorizer
  import opened Wrappers

  /** A Kafka sink, told apart by its serial number. */
  datatype Sink = Sink(serial: nat, topic: string, customerId: int)

  class KafkaSinkFactory {
    const authorizer: TopicAuthorizer
    var cache: map<string, Sink>
    var created: nat

    ghost predicate Valid()
      reads this, authorizer
    {
      && authorizer.Valid()
      && (forall t :: t in cache ==> cache[t].topic == t && cache[t].serial < created)
      && (forall t, t' :: t in cache && t' in cache && cache[t].serial == cache[t'].serial ==> t == t')
    }

    constructor (authorizer: TopicAuthorizer)
      requires authorizer.Valid()
      ensures Valid() && this.authorizer == authorizer && cache == map[]
    {
      this.authorizer := authorizer;
      cache := map[];
      created := 0;
    }

    /** get_metrics_sink: one sink for each physical topic, for ever; tenant 0 counts as not authorized. */
    method GetMetricsSink(apiKey: string, secret: string) returns (sink: Option<Sink>)
      requires Valid()
      modifies this
      ensures Valid()
      ensures
        var (topic, tenant) := Authorize(Load(authorizer.history), Request(Write, apiKey, secret, "metrics"));
        if tenant == 0 then sink == None && cache == old(cache)
        else if topic in old(cache) then sink == Some(old(cache)[topic]) && cache == old(cache)
        else sink == Some(Sink(old(created), topic, tenant)) && cache == old(cache)[topic := sink.value]
    {
      hide Load, Authorize;
      var authorized := authorizer.AuthorizeAccess(Write, apiKey, secret, "metrics");
      var topic, tenant := authorized.0, authorized.1;
      if tenant == 0 {
        return None;
      }
      if topic in cache {
        return Some(cache[topic]);
      }
      var p := Sink(created, topic, tenant);
      created := created + 1;
      cache := cache[topic := p];
      return Some(p);
    }
  }

  /** Credentials that a disabled or deleted id was the last to file open no sink, until the id is upserted again. */
  lemma RemovedIdOpensNoSink(history: seq<Record>, r: Record, later: seq<Record>, q: Request)
    requires r.id.Some? && r.tenantId.Some? && r.isDisabled.Some? && r.isDeleted.Some? && r.apiKey.Some?
    requires r.secretHash.Some? && (r.isDisabled == Some(true) || r.isDeleted == Some(true))
    requires forall x :: x in later && x.isDisabled == Some(false) && x.isDeleted == Some(false) ==> x.id != r.id
    requires var all := history + [r] + later; NoCollision(all, q) && LastFiled(all, q) == r.id
    ensures Authorize(Load(history + [r] + later), q) == ("", 0)
  {
    hide Load, Md5, NoCollision, LastFiled, Passes, Answering;
    RemovedIdIsSilent(history, r, later, q);
    var all := history + [r] + later;
    var answer := Answering(Load(all), q);
    if answer.Some? {
      AnswersExactly(all, q, answer.value);
    }
  }
}
