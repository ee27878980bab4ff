/** Domain specs as JSON documents, and the reader that takes them apart again. */
module JsonSerializer {
  import opened Wrappers
  import opened DomainSpecs

  datatype Json = Null | Number(n: int) | Text(s: string) | Array(items: seq<Json>) | Object(fields: map<string, Json>)

  const ID := "id"
  const DOMAIN := "domain"
  const HOST := "host"
  const PORT := "port"

  // ---- writing -----------------------------------------------------------------------------

  /** Adds a field, if there is a value. */
  method SvcConfig(config: map<string, Json>, field: string, value: Option<Json>) returns (config': map<string, Json>)
    ensures config' == if value.Some? then config[field := value.value] else config
  {
    config' := config;
    if value.Some? {
      config' := config'[field := value.value];
    }
  }

  function BackendSetup(host: string, port: nat): Json {
    Object(map[HOST := Text(host)][PORT := Number(port)])
  }

  function Backend(host: string, port: Option<nat>): Option<Json> {
    match port case None => None case Some(p) => Some(BackendSetup(host, p))
  }

  /** The fields of a spec's document: its id and domain, and a backend for each port it has. */
  ghost predicate Describes(fields: map<string, Json>, host: string, spec: DomainSpec) {
    && fields.Keys == {ID, DOMAIN} +
                      (if spec.httpPort.Some? then {HTTP} else {}) + (if spec.httpsPort.Some? then {HTTPS} else {})
    && fields[ID] == Text(spec.Id()) && fields[DOMAIN] == Text(spec.domainName)
    && (spec.httpPort.Some? ==> fields[HTTP] == BackendSetup(host, spec.httpPort.value))
    && (spec.httpsPort.Some? ==> fields[HTTPS] == BackendSetup(host, spec.httpsPort.value))
  }

  function DomainDoc(host: string, spec: DomainSpec): (doc: Json)
    ensures doc.Object? && Describes(doc.fields, host, spec)
  {
    KeysDiffer();
    var base := map[ID := Text(spec.Id()), DOMAIN := Text(spec.domainName)];
    var http := if spec.httpPort.Some? then base[HTTP := BackendSetup(host, spec.httpPort.value)] else base;
    Object(if spec.httpsPort.Some? then http[HTTPS := BackendSetup(host, spec.httpsPort.value)] else http)
  }

  lemma KeysDiffer()
    ensures |ID| == 2 && |DOMAIN| == 6 && |HTTP| == 4 && |HTTPS| == 5
    ensures HOST != PORT && HOST != HTTP && PORT != HTTP
  {
    assert HOST[0] == 'h' && PORT[0] == 'p' && HTTP[1] == 't' && HOST[1] == 'o';
  }

  method DomainConfig(host: string, spec: DomainSpec) returns (config: map<string, Json>)
    ensures Object(config) == DomainDoc(host, spec)
  {
    KeysDiffer();
    config := map[];
    config := SvcConfig(config, ID, Some(Text(spec.Id())));
    config := SvcConfig(config, DOMAIN, Some(Text(spec.domainName)));
    config := SvcConfig(config, HTTP, Backend(host, spec.httpPort));
    config := SvcConfig(config, HTTPS, Backend(host, spec.httpsPort));
  }

  function DomainDocs(host: string, specs: seq<DomainSpec>): (docs: seq<Json>)
    ensures |docs| == |specs| && forall k :: 0 <= k < |specs| ==> docs[k] == DomainDoc(host, specs[k])
  {
    seq(|specs|, k requires 0 <= k < |specs| => DomainDoc(host, specs[k]))
  }

  method DomainConfigs(host: string, specs: seq<DomainSpec>) returns (configs: seq<Json>)
    ensures configs == DomainDocs(host, specs)
  {
    configs := [];
    for k := 0 to |specs|
      invariant configs == DomainDocs(host, specs)[..k]
    {
      var config := DomainConfig(host, specs[k]);
      configs := configs + [Object(config)];
    }
  }

  // ---- reading ------------------------------------------------------------------------------

  function TextField(fields: map<string, Json>, key: string): Option<string> {
    if key in fields && fields[key].Text? then Some(fields[key].s) else None
  }

  /** A backend of the expected host, with a port from 1 to 65535; `None` when the document is not as expected. */
  function ReadBackend(fields: map<string, Json>, protocol: string, host: string): Option<Option<nat>> {
    if protocol !in fields then Some(None)
    else if !fields[protocol].Object? then None
    else
      var backend := fields[protocol].fields;
      if TextField(backend, HOST) == Some(host) && PORT in backend && backend[PORT].Number?
        && 0 < backend[PORT].n <= 0xFFFF
      then Some(Some(backend[PORT].n)) else None
  }

  function ReadDoc(doc: Json, host: string): Option<(string, DomainSpec)> {
    if !doc.Object? then None else
    match (TextField(doc.fields, ID), TextField(doc.fields, DOMAIN),
           ReadBackend(doc.fields, HTTP, host), ReadBackend(doc.fields, HTTPS, host))
    case (Some(id), Some(domain), Some(http), Some(https)) => Some((id, DomainSpec(domain, http, https)))
    case _ => None
  }

  function ReadDocs(docs: seq<Json>, host: string): Option<seq<(string, DomainSpec)>> {
    if docs == [] then Some([]) else
    match (ReadDoc(docs[0], host), ReadDocs(docs[1..], host))
    case (Some(d), Some(ds)) => Some([d] + ds)
    case _ => None
  }

  // ---- reading undoes writing -----------------------------------------------------------------

  predicate HasPortZero(spec: DomainSpec) {
    spec.httpPort == Some(0) || spec.httpsPort == Some(0)
  }

  predicate SomePortZero(specs: seq<DomainSpec>) {
    exists k :: 0 <= k < |specs| && HasPortZero(specs[k])
  }

  lemma SomePortZeroIs(specs: seq<DomainSpec>)
    ensures !SomePortZero([])
    ensures specs != [] ==> (SomePortZero(specs) <==> HasPortZero(specs[0]) || SomePortZero(specs[1..]))
  {
    hide HasPortZero;
    assert forall k :: 0 < k < |specs| ==> specs[k] == specs[1..][k - 1];
  }

  function WithId(spec: DomainSpec): (string, DomainSpec) {
    (spec.Id(), spec)
  }

  function WithIds(specs: seq<DomainSpec>): (r: seq<(string, DomainSpec)>)
    ensures |r| == |specs| && forall k :: 0 <= k < |specs| ==> r[k] == WithId(specs[k])
  {
    seq(|specs|, k requires 0 <= k < |specs| => WithId(specs[k]))
  }

  /** A document, field by field, by their names. */
  lemma DocumentIs(host: string, spec: DomainSpec)
    ensures DomainDoc(host, spec).Object?
    ensures var fields := DomainDoc(host, spec).fields;
            && "id" in fields && fields["id"] == Text(spec.Id())
            && "domain" in fields && fields["domain"] == Text(spec.domainName)
            && ("http" in fields <==> spec.httpPort.Some?) && ("https" in fields <==> spec.httpsPort.Some?)
            && (spec.httpPort.Some? ==>
                  fields["http"] == Object(map["host" := Text(host), "port" := Number(spec.httpPort.value)]))
            && (spec.httpsPort.Some? ==>
                  fields["https"] == Object(map["host" := Text(host), "port" := Number(spec.httpsPort.value)]))
            && fields.Keys <= {"id", "domain", "http", "https"}
  {
    hide DomainSpec.Id;
    KeysDiffer();
  }

  lemma BackendRead(fields: map<string, Json>, protocol: string, host: string, port: Option<nat>)
    requires ValidPort(port)
    requires protocol in fields <==> port.Some?
    requires port.Some? ==> fields[protocol] == BackendSetup(host, port.value)
    ensures ReadBackend(fields, protocol, host) == if port == Some(0) then None else Some(port)
  {
    KeysDiffer();
  }

  /** A document reads back as the spec it was made of, and its id; except that the reader takes no port 0. */
  lemma DocRead(host: string, spec: DomainSpec)
    requires ValidPort(spec.httpPort) && ValidPort(spec.httpsPort)
    ensures ReadDoc(DomainDoc(host, spec), host) == if HasPortZero(spec) then None else Some(WithId(spec))
  {
    hide DomainDoc, ReadBackend, BackendSetup;
    KeysDiffer();
    var fields := DomainDoc(host, spec).fields;
    BackendRead(fields, HTTP, host, spec.httpPort);
    BackendRead(fields, HTTPS, host, spec.httpsPort);
  }

  lemma {:induction false} DocsRead(host: string, specs: seq<DomainSpec>)
    requires forall k :: 0 <= k < |specs| ==> ValidPort(specs[k].httpPort) && ValidPort(specs[k].httpsPort)
    ensures ReadDocs(DomainDocs(host, specs), host) ==
            if SomePortZero(specs) then None else Some(WithIds(specs))
  {
    hide DomainDoc, ReadDoc, HasPortZero, SomePortZero, ValidPort, WithId;
    SomePortZeroIs(specs);
    if specs == [] {
    } else {
      DocRead(host, specs[0]);
      DocsRead(host, specs[1..]);
      assert DomainDocs(host, specs)[1..] == DomainDocs(host, specs[1..]);
      assert WithIds(specs) == [WithId(specs[0])] + WithIds(specs[1..]);
    }
  }
}
