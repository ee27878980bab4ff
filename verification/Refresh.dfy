/** One refresh round: which containers it covers, and what becomes of each. */
module Refresh {
  import opened Wrappers
  import opened Common
  import opened DomainSpecs
  import opened DockerInspector
  import opened Redis
  import opened Bags

  /** Something to do, and whether it was asked for by name. */
  datatype Pending<+T> = Pending(explicit: bool, todo: T)
  {
    function TryMap<R, E>(f: Result<R, E>): Result<Pending<R>, E> {
      match f case Ok(r) => Ok(Pending(explicit, r)) case Err(e) => Err(e)
    }
  }

  datatype CompanionError =
    | FailedInspection(inspection: InspectionError)
    | FailedPublishing(publishing: PublishingError)
    | EnvVarMissing(container: string, envvar: string)
    | Systemd(code: int)

  // ---- the containers of a round ----------------------------------------------------------

  /** Every name once: those listed explicitly, and those enumerated if that is on and works. */
  function Targets(config: Config, explicit: seq<string>, found: Result<seq<string>, InspectionError>)
    : map<string, Pending<string>>
  {
    var more := if config.enumerate && found.Ok? then found.value else [];
    map n | n in explicit + more :: Pending(n in explicit, n)
  }

  /** `names` lists the entries of `index` in some order. */
  ghost predicate Drains(names: seq<Pending<string>>, index: map<string, Pending<string>>) {
    && (forall k :: 0 <= k < |names| ==> names[k].todo in index && names[k] == index[names[k].todo])
    && (forall i, j :: 0 <= i < j < |names| ==> names[i].todo != names[j].todo)
    && (forall n :: n in index ==> exists k :: 0 <= k < |names| && names[k].todo == n)
  }

  /** The names of a round: each once, exactly those listed or enumerated, and flagged explicit exactly when listed. */
  lemma NamesOfARound(config: Config, explicit: seq<string>, found: Result<seq<string>, InspectionError>,
                      names: seq<Pending<string>>)
    requires Drains(names, Targets(config, explicit, found))
    ensures forall i, j :: 0 <= i < j < |names| ==> names[i].todo != names[j].todo
    ensures forall k :: 0 <= k < |names| ==> (names[k].explicit <==> names[k].todo in explicit)
    ensures forall n :: (exists k :: 0 <= k < |names| && names[k].todo == n) <==>
                        n in explicit || (config.enumerate && found.Ok? && n in found.value)
  {
    var index := Targets(config, explicit, found);
    assert forall n :: n in index <==> n in explicit || (config.enumerate && found.Ok? && n in found.value);
  }

  function EnumerationErrors(config: Config, found: Result<seq<string>, InspectionError>): seq<CompanionError> {
    if config.enumerate && found.Err? then [FailedInspection(found.error)] else []
  }

  // ---- one container ------------------------------------------------------------------------

  datatype Fate =
    | InspectFailed(cause: InspectionError)
    | EnvVarAbsent
    | DryRun(p: Publication)
    | PublishFailed(p: Publication, reason: PublishingError)
    | Published(p: Publication)

  /** `inspected` is what an inspection of the container makes of some reply of docker's. */
  ghost predicate Answered(config: Config, name: string, inspected: Result<Inspection, InspectionError>) {
    exists reply :: inspected == Inspected(config.dockerNetwork, config.envvar, name, reply)
  }

  /** What becomes of a container, from what its inspection and, if it comes to that, its publication answer. */
  function FateOf(config: Config, inspected: Result<Inspection, InspectionError>,
                  answer: Result<(), PublishingError>): Fate {
    match inspected
    case Err(e) => InspectFailed(e)
    case Ok(i) =>
      if !i.envvarPresent then EnvVarAbsent
      else if config.dryRun then DryRun(Publication(i.host, i.specs))
      else match answer
        case Err(e) => PublishFailed(Publication(i.host, i.specs), e)
        case Ok(_) => Published(Publication(i.host, i.specs))
  }

  /** Which fates the configuration makes an error. */
  predicate IsReported(config: Config, explicit: bool, fate: Fate) {
    match fate
    case InspectFailed(_) => explicit || config.missingContainer == ReportMissing
    case EnvVarAbsent => config.missingEnvvar == Report || (explicit && config.missingEnvvar == Automatic)
    case PublishFailed(_, _) => true
    case DryRun(_) => false
    case Published(_) => false
  }

  /** The errors the round reports for it. */
  function Reports(config: Config, name: Pending<string>, fate: Fate): seq<CompanionError> {
    if !IsReported(config, name.explicit, fate) then [] else
    match fate
    case InspectFailed(e) => [FailedInspection(e)]
    case EnvVarAbsent => [EnvVarMissing(name.todo, config.envvar)]
    case PublishFailed(_, e) => [FailedPublishing(e)]
  }

  /** A failed inspection is reported exactly if the container is listed or missing containers are errors. The
      documented rule, that for a listed container it is reported only if missing ones are errors, fails exactly when
      they are not; and the setting, documented for listed containers only, also decides for all others. */
  lemma FailedInspectionIsReported(config: Config, name: Pending<string>, cause: InspectionError,
                                   answer: Result<(), PublishingError>)
    ensures var reported := Reports(config, name, FateOf(config, Err(cause), answer)) != [];
            && (reported <==> name.explicit || config.missingContainer == ReportMissing)
            && (name.explicit ==>
                  ((reported <==> config.missingContainer == ReportMissing) <==>
                    config.missingContainer == ReportMissing))
            && (!name.explicit ==> (reported <==> config.missingContainer == ReportMissing))
  {
  }

  /** The key of a container is the prefix and its name, as documented, exactly when the network is on, or its address
      on the bridge happens to be its name. */
  lemma KeyNamesContainer(config: Config, name: string, container: Container, answer: Result<(), PublishingError>)
    ensures var fate := FateOf(config, Inspected(config.dockerNetwork, config.envvar, name, Ok(container)), answer);
            fate.Published? ==>
              (ServiceKey(config.keyPrefix, fate.p.host) == config.keyPrefix + name <==>
               config.dockerNetwork || container.ipAddress == name)
  {
    hide ServiceKey, Answer, Pushed, AllValues, Mentions;
    var host := Host(config.dockerNetwork, name, container);
    KeysOfHostsDiffer(config.keyPrefix, host, name);
    KeyIs(config.keyPrefix, name);
  }

  lemma KeyIs(prefix: string, name: string)
    ensures ServiceKey(prefix, name) == prefix + name
  {
  }

  // ---- a whole round against a fixed environment ---------------------------------------------

  /** An environment whose answers depend on nothing but the question. */
  datatype Oracles = Oracles(inspect: string -> Result<Inspection, InspectionError>,
                             publish: Publication -> Result<(), PublishingError>)
  {
    function Outcome(config: Config, name: string): Fate {
      FateOf(config, inspect(name),
             match inspect(name) case Ok(i) => publish(Publication(i.host, i.specs)) case Err(_) => Ok(()))
    }
  }

  /** The key and value a container's refresh writes, if it writes. */
  function Writes(config: Config, o: Oracles, name: string): Option<(string, Value)> {
    match o.Outcome(config, name)
    case Published(p) => Some((ServiceKey(config.keyPrefix, p.host), ValueOf(config, p)))
    case _ => None
  }

  function Apply(values: map<string, Value>, w: Option<(string, Value)>): map<string, Value> {
    match w case None => values case Some((k, v)) => values[k := v]
  }

  /** The keys and values after refreshing `names` in order. */
  function RefreshAll(config: Config, o: Oracles, names: seq<Pending<string>>, values: map<string, Value>)
    : map<string, Value>
  {
    if names == [] then values else
    var last := |names| - 1;
    Apply(RefreshAll(config, o, names[..last], values), Writes(config, o, names[last].todo))
  }

  function ErrorsOf(config: Config, o: Oracles, names: seq<Pending<string>>): seq<CompanionError> {
    if names == [] then [] else
    var last := |names| - 1;
    ErrorsOf(config, o, names[..last]) + Reports(config, names[last], o.Outcome(config, names[last].todo))
  }

  /** No two containers write different values to one key. */
  ghost predicate NoClash(config: Config, o: Oracles, names: seq<Pending<string>>) {
    forall i, j :: 0 <= i < j < |names| ==> !Clash(Writes(config, o, names[i].todo), Writes(config, o, names[j].todo))
  }

  predicate Clash(v: Option<(string, Value)>, w: Option<(string, Value)>) {
    v.Some? && w.Some? && v.value.0 == w.value.0 && v.value.1 != w.value.1
  }

  /** Containers that both can be inspected have different hosts. */
  ghost predicate HostsDiffer(o: Oracles, names: seq<Pending<string>>) {
    forall i, j :: 0 <= i < j < |names| && o.inspect(names[i].todo).Ok? && o.inspect(names[j].todo).Ok? ==>
      o.inspect(names[i].todo).value.host != o.inspect(names[j].todo).value.host
  }

  lemma WritesTo(config: Config, o: Oracles, name: string)
    ensures Writes(config, o, name).Some? ==>
              o.inspect(name).Ok? && Writes(config, o, name).value.0 ==
                ServiceKey(config.keyPrefix, o.inspect(name).value.host)
  {
  }

  /** Containers with different hosts do not clash. */
  lemma DifferentHostsDoNotClash(config: Config, o: Oracles, names: seq<Pending<string>>)
    requires HostsDiffer(o, names)
    ensures NoClash(config, o, names)
  {
    hide Writes, ServiceKey;
    forall i, j | 0 <= i < j < |names|
      ensures !Clash(Writes(config, o, names[i].todo), Writes(config, o, names[j].todo))
    {
      WritesTo(config, o, names[i].todo);
      WritesTo(config, o, names[j].todo);
      if Writes(config, o, names[i].todo).Some? && Writes(config, o, names[j].todo).Some? {
        KeysOfHostsDiffer(config.keyPrefix, o.inspect(names[i].todo).value.host, o.inspect(names[j].todo).value.host);
      }
    }
  }

  /** Without clashes, every container's key ends up with that container's value. */
  lemma {:induction false} EachKeyHasItsWriter(config: Config, o: Oracles, names: seq<Pending<string>>,
                                               values: map<string, Value>, i: nat)
    requires NoClash(config, o, names) && i < |names| && Writes(config, o, names[i].todo).Some?
    ensures var (k, v) := Writes(config, o, names[i].todo).value;
            k in RefreshAll(config, o, names, values) && RefreshAll(config, o, names, values)[k] == v
  {
    hide Writes;
    var last := |names| - 1;
    if i == last {
    } else {
      EachKeyHasItsWriter(config, o, names[..last], values, i);
      assert !Clash(Writes(config, o, names[i].todo), Writes(config, o, names[last].todo));
    }
  }

  ghost predicate NoneWrites(config: Config, o: Oracles, names: seq<Pending<string>>, key: string) {
    forall i :: 0 <= i < |names| && Writes(config, o, names[i].todo).Some? ==>
      Writes(config, o, names[i].todo).value.0 != key
  }

  lemma {:induction false} OtherKeysStay(config: Config, o: Oracles, names: seq<Pending<string>>,
                                         values: map<string, Value>, key: string)
    requires NoneWrites(config, o, names, key)
    ensures key in RefreshAll(config, o, names, values) <==> key in values
    ensures key in values ==> RefreshAll(config, o, names, values)[key] == values[key]
  {
    hide Writes;
    if names == [] {
    } else {
      OtherKeysStay(config, o, names[..|names| - 1], values, key);
    }
  }

  lemma ClashesStay(config: Config, o: Oracles, a: seq<Pending<string>>, b: seq<Pending<string>>)
    requires NoClash(config, o, a) && (forall x :: x in b ==> x in a)
    ensures NoClash(config, o, b)
  {
    hide Writes;
    forall i, j | 0 <= i < j < |b|
      ensures !Clash(Writes(config, o, b[i].todo), Writes(config, o, b[j].todo))
    {
      assert b[i] in a && b[j] in a;
      var k :| 0 <= k < |a| && a[k] == b[i];
      var l :| 0 <= l < |a| && a[l] == b[j];
      assert !Clash(Writes(config, o, a[if k < l then k else l].todo),
                    Writes(config, o, a[if k < l then l else k].todo));
    }
  }

  lemma SameLookup(config: Config, o: Oracles, a: seq<Pending<string>>, b: seq<Pending<string>>,
                   values: map<string, Value>, key: string)
    requires NoClash(config, o, a) && NoClash(config, o, b) && (forall x :: x in a <==> x in b)
    ensures var ra, rb := RefreshAll(config, o, a, values), RefreshAll(config, o, b, values);
            (key in ra <==> key in rb) && (key in ra ==> ra[key] == rb[key])
  {
    hide Writes, RefreshAll, NoClash;
    if NoneWrites(config, o, a, key) {
      forall j | 0 <= j < |b| && Writes(config, o, b[j].todo).Some?
        ensures Writes(config, o, b[j].todo).value.0 != key
      {
        assert b[j] in a;
      }
      OtherKeysStay(config, o, a, values, key);
      OtherKeysStay(config, o, b, values, key);
    } else {
      var i :| 0 <= i < |a| && Writes(config, o, a[i].todo).Some? && Writes(config, o, a[i].todo).value.0 == key;
      assert a[i] in b;
      var j :| 0 <= j < |b| && b[j] == a[i];
      EachKeyHasItsWriter(config, o, a, values, i);
      EachKeyHasItsWriter(config, o, b, values, j);
    }
  }

  // ---- the bag of errors ------------------------------------------------------------------------

  lemma {:induction false} ErrorsAsBag(config: Config, o: Oracles, names: seq<Pending<string>>,
                                       f: Pending<string> -> multiset<CompanionError>)
    requires forall x :: f(x) == multiset(Reports(config, x, o.Outcome(config, x.todo)))
    ensures multiset(ErrorsOf(config, o, names)) == Bag(f, names)
  {
    hide Reports, Oracles.Outcome;
    if names == [] {
    } else {
      ErrorsAsBag(config, o, names[..|names| - 1], f);
    }
  }

  lemma SameErrors(config: Config, o: Oracles, a: seq<Pending<string>>, b: seq<Pending<string>>)
    requires multiset(a) == multiset(b)
    ensures multiset(ErrorsOf(config, o, a)) == multiset(ErrorsOf(config, o, b))
  {
    hide Reports, Oracles.Outcome, Bag;
    var f := (x: Pending<string>) => multiset(Reports(config, x, o.Outcome(config, x.todo)));
    ErrorsAsBag(config, o, a, f);
    ErrorsAsBag(config, o, b, f);
    BagPermutes(f, a, b);
  }

  lemma DrainsSame(a: seq<Pending<string>>, b: seq<Pending<string>>, index: map<string, Pending<string>>)
    requires Drains(a, index) && Drains(b, index)
    ensures forall x :: x in a <==> x in b
    ensures multiset(a) == multiset(b)
  {
    DrainsAll(a, index);
    DrainsAll(b, index);
    DistinctBag(a);
    DistinctBag(b);
    assert (set x | x in a) == (set x | x in b);
  }

  lemma DrainsAll(a: seq<Pending<string>>, index: map<string, Pending<string>>)
    requires Drains(a, index)
    ensures forall x :: x in a <==> x in index.Values
    ensures forall i, j :: 0 <= i < j < |a| ==> a[i] != a[j]
  {
    forall x | x in index.Values
      ensures x in a
    {
      var n :| n in index && index[n] == x;
      var k :| 0 <= k < |a| && a[k].todo == n;
    }
  }

  /** Two rounds over the same containers, in whatever orders the index is drained, leave the same keys and values
      and report the same errors, if the containers do not clash. */
  lemma OrderDoesNotMatter(config: Config, o: Oracles, index: map<string, Pending<string>>,
                           a: seq<Pending<string>>, b: seq<Pending<string>>, values: map<string, Value>)
    requires Drains(a, index) && Drains(b, index)
    requires NoClash(config, o, a)
    ensures RefreshAll(config, o, a, values) == RefreshAll(config, o, b, values)
    ensures multiset(ErrorsOf(config, o, a)) == multiset(ErrorsOf(config, o, b))
  {
    hide Drains, NoClash, RefreshAll, ErrorsOf;
    DrainsSame(a, b, index);
    ClashesStay(config, o, a, b);
    SameErrors(config, o, a, b);
    forall key
      ensures var ra, rb := RefreshAll(config, o, a, values), RefreshAll(config, o, b, values);
              (key in ra <==> key in rb) && (key in ra ==> ra[key] == rb[key])
    {
      SameLookup(config, o, a, b, values, key);
    }
  }

  // ---- when the order matters --------------------------------------------------------------------

  /** Every order of draining leaves the same keys and values. */
  ghost predicate OrderIsFree(config: Config, o: Oracles, index: map<string, Pending<string>>,
                              values: map<string, Value>) {
    forall a, b :: Drains(a, index) && Drains(b, index) ==>
      RefreshAll(config, o, a, values) == RefreshAll(config, o, b, values)
  }

  /** Some order to drain an index in. */
  lemma {:induction false} SomeDrain(index: map<string, Pending<string>>) returns (names: seq<Pending<string>>)
    requires forall n :: n in index ==> index[n].todo == n
    ensures Drains(names, index)
    decreases |index|
  {
    if index == map[] {
      names := [];
    } else {
      assert index.Keys != {};
      var n :| n in index;
      names := DrainWithLast(index, n);
    }
  }

  /** Any container can be the last one. */
  lemma {:induction false} DrainWithLast(index: map<string, Pending<string>>, n: string)
    returns (names: seq<Pending<string>>)
    requires n in index && forall m :: m in index ==> index[m].todo == m
    ensures Drains(names, index)
    ensures names != [] && names[|names| - 1] == index[n]
    decreases |index|, 0
  {
    hide Drains;
    var rest := index - {n};
    assert |rest| < |index| by {
      assert rest.Keys == index.Keys - {n};
      assert |rest.Keys| == |rest| && |index.Keys| == |index|;
    }
    var front := SomeDrain(rest);
    names := front + [index[n]];
    DrainOneMore(index, n, front);
  }

  lemma DrainOneMore(index: map<string, Pending<string>>, n: string, front: seq<Pending<string>>)
    requires n in index && index[n].todo == n && Drains(front, index - {n})
    ensures Drains(front + [index[n]], index)
  {
    var names := front + [index[n]];
    forall m | m in index
      ensures exists k :: 0 <= k < |names| && names[k].todo == m
    {
      if m == n {
        assert names[|front|].todo == m;
      } else {
        assert m in index - {n};
        var k :| 0 <= k < |front| && front[k].todo == m;
        assert names[k].todo == m;
      }
    }
  }

  lemma LastWriterWins(config: Config, o: Oracles, names: seq<Pending<string>>, values: map<string, Value>)
    requires names != [] && Writes(config, o, names[|names| - 1].todo).Some?
    ensures var (k, v) := Writes(config, o, names[|names| - 1].todo).value;
            k in RefreshAll(config, o, names, values) && RefreshAll(config, o, names, values)[k] == v
  {
    hide Writes;
  }

  /** The order of a round does not matter if and only if no two of its containers write different values to one key. */
  lemma OrderIsFreeWhen(config: Config, o: Oracles, index: map<string, Pending<string>>, names: seq<Pending<string>>,
                        values: map<string, Value>)
    requires Drains(names, index) && forall n :: n in index ==> index[n].todo == n
    ensures OrderIsFree(config, o, index, values) <==> NoClash(config, o, names)
  {
    hide Drains, NoClash, RefreshAll, Writes;
    if NoClash(config, o, names) {
      forall a, b | Drains(a, index) && Drains(b, index)
        ensures RefreshAll(config, o, a, values) == RefreshAll(config, o, b, values)
      {
        OrderDoesNotMatter(config, o, index, names, a, values);
        OrderDoesNotMatter(config, o, index, names, b, values);
      }
    } else {
      var n1, n2 := SomeClash(config, o, index, names);
      var a := DrainWithLast(index, n1);
      var b := DrainWithLast(index, n2);
      LastWriterWins(config, o, a, values);
      LastWriterWins(config, o, b, values);
    }
  }

  lemma SomeClash(config: Config, o: Oracles, index: map<string, Pending<string>>, names: seq<Pending<string>>)
    returns (n1: string, n2: string)
    requires Drains(names, index) && !NoClash(config, o, names)
    ensures n1 in index && n2 in index && Clash(Writes(config, o, n1), Writes(config, o, n2))
  {
    hide Writes, Clash;
    var i, j :| 0 <= i < j < |names| && Clash(Writes(config, o, names[i].todo), Writes(config, o, names[j].todo));
    n1, n2 := names[i].todo, names[j].todo;
  }
}
