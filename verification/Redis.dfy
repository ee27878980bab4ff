/** The publisher: an expiring map from service keys to documents. Times are in ticks. */
module Redis {
  import opened Wrappers
  import opened Common
  import opened DomainSpecs
  import opened JsonSerializer

  /** Ticks of the clock (nanoseconds) in a second and in a microsecond. */
  const SEC: nat := 1_000_000_000
  const US: nat := 1_000

  datatype Publication = Publication(host: string, specs: seq<DomainSpec>)

  datatype PublishingError = PublishingError(code: int)

  /** What is handed to the client library: encoded text, or, without an expiry, the bare documents. */
  datatype Value = Encoded(doc: Json) | Bare(docs: seq<Json>)

  datatype Entry = Entry(value: Value, expires: Option<int>)

  type Store = map<string, Entry>

  function ServiceKey(prefix: string, host: string): string {
    prefix + host
  }

  function ValueOf(config: Config, p: Publication): Value {
    var docs := DomainDocs(p.host, p.specs);
    if config.expireSeconds.Some? then Encoded(Array(docs)) else Bare(docs)
  }

  /** A store after a successful publication at time `now`. */
  function Put(config: Config, store: Store, p: Publication, now: int): Store {
    store[ServiceKey(config.keyPrefix, p.host) :=
      Entry(ValueOf(config, p),
            match config.expireSeconds case None => None case Some(e) => Some(now + e * SEC))]
  }

  predicate IsLive(store: Store, key: string, t: int) {
    key in store && (store[key].expires.Some? ==> t < store[key].expires.value)
  }

  /** What a client sees at time `t`. */
  function Live(store: Store, t: int): map<string, Value> {
    map key | key in store && IsLive(store, key, t) :: store[key].value
  }

  class RedisPublisher {
    const config: Config
    var store: Store   // the server's, which outlives this object

    constructor (config: Config, store: Store)
      ensures this.config == config && this.store == store
    {
      this.config, this.store := config, store;
    }

    /** Overwrites the key of the publication's host; `fault` is what the server or the network does wrong. */
    method Publish(p: Publication, now: int, fault: Option<PublishingError>) returns (r: Result<(), PublishingError>)
      modifies this
      ensures r == match fault case None => Ok(()) case Some(e) => Err(e)
      ensures store == if r.Ok? then Put(config, old(store), p, now) else old(store)
    {
      var key := config.keyPrefix + p.host;
      var published := DomainConfigs(p.host, p.specs);
      match fault
      case Some(e) => r := Err(e);
      case None =>
        match config.expireSeconds {
          case Some(seconds) => store := store[key := Entry(Encoded(Array(published)), Some(now + seconds * SEC))];
          case None => store := store[key := Entry(Bare(published), None)];
        }
        r := Ok(());
    }
  }

  // ---- what a client reads back ---------------------------------------------------------------

  function Read(value: Value, host: string): Option<seq<(string, DomainSpec)>> {
    match value
    case Encoded(Array(docs)) => ReadDocs(docs, host)
    case _ => None
  }

  lemma KeysOfHostsDiffer(prefix: string, h1: string, h2: string)
    ensures ServiceKey(prefix, h1) == ServiceKey(prefix, h2) <==> h1 == h2
  {
    assert ServiceKey(prefix, h1)[|prefix|..] == h1;
    assert ServiceKey(prefix, h2)[|prefix|..] == h2;
  }

  ghost predicate PortsFit(specs: seq<DomainSpec>) {
    forall k :: 0 <= k < |specs| ==> ValidPort(specs[k].httpPort) && ValidPort(specs[k].httpsPort)
  }

  /** What an expiring publication writes reads back as the published specs, in order and with their ids, unless one of
      them has port 0. */
  lemma ValueIsRead(config: Config, p: Publication)
    requires config.expireSeconds.Some? && PortsFit(p.specs)
    ensures Read(ValueOf(config, p), p.host) == if SomePortZero(p.specs) then None else Some(WithIds(p.specs))
  {
    hide SomePortZero, DomainDocs, ReadDocs;
    DocsRead(p.host, p.specs);
  }

  /** After an expiring publication, and until it expires, its key reads back exactly the published specs, in order
      and with their ids, unless one of them has port 0; every other host's key is as it was. */
  lemma PublishedIsRead(config: Config, store: Store, p: Publication, now: int, t: int)
    requires config.expireSeconds.Some? && PortsFit(p.specs)
    requires t < now + config.expireSeconds.value * SEC
    ensures var key, live := ServiceKey(config.keyPrefix, p.host), Live(Put(config, store, p, now), t);
            && key in live
            && Read(live[key], p.host) ==
               (if SomePortZero(p.specs) then None else Some(WithIds(p.specs)))
    ensures forall host :: host != p.host ==>
              var other := ServiceKey(config.keyPrefix, host);
              var live := Live(Put(config, store, p, now), t);
              && (other in live <==> other in Live(store, t))
              && (other in live ==> live[other] == Live(store, t)[other])
  {
    hide ServiceKey, SomePortZero, ValueOf, Read;
    ValueIsRead(config, p);
    forall host | host != p.host
      ensures ServiceKey(config.keyPrefix, host) != ServiceKey(config.keyPrefix, p.host)
    {
      KeysOfHostsDiffer(config.keyPrefix, host, p.host);
    }
  }

  /** Nothing is left of what a host published before. */
  lemma RepublishReplaces(config: Config, store: Store, p: Publication, t1: int, q: Publication, t2: int)
    requires p.host == q.host
    ensures Put(config, Put(config, store, p, t1), q, t2) == Put(config, store, q, t2)
  {
  }
}
