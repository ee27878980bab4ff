/** What the inspector makes of a container: its host, and the domain specs in its environment. */
module DockerInspector {
  import opened Wrappers
  import opened Text
  import opened DomainSpecs
  import opened Composition

  datatype InspectionError = Docker(code: int) | BadSpec(cause: DomainSpecError)

  datatype Inspection = Inspection(host: string, specs: seq<DomainSpec>, envvarPresent: bool)

  /** What the docker daemon says about a container. */
  datatype Container = Container(ipAddress: string, env: Option<seq<string>>)

  // ---- environment lines -----------------------------------------------------------------

  /** The value of a line `envvar=value`. */
  function LineValue(envvar: string, line: string): Option<string> {
    var (name, value) := SplitOnce(line, '=');
    if name == envvar then value else None
  }

  /** A line counts exactly when it starts with the name and an equals sign, and the name has none itself. */
  lemma LineValueWhen(envvar: string, line: string)
    ensures LineValue(envvar, line).Some? <==> '=' !in envvar && envvar + "=" <= line
    ensures LineValue(envvar, line).Some? ==> line == envvar + "=" + LineValue(envvar, line).value
  {
    if '=' !in envvar && envvar + "=" <= line {
      var value := line[|envvar| + 1..];
      assert line == envvar + ['='] + value;
      SplitOnceUnique(envvar, '=', value);
    }
  }

  function Values(envvar: string, env: seq<string>, n: nat): seq<string>
    requires n <= |env|
  {
    if n == 0 then [] else
    match LineValue(envvar, env[n - 1])
    case None => Values(envvar, env, n - 1)
    case Some(v) => Values(envvar, env, n - 1) + [v]
  }

  lemma NextValue(envvar: string, env: seq<string>, n: nat)
    requires n < |env|
    ensures var (name, value) := SplitOnce(env[n], '=');
            Values(envvar, env, n + 1) ==
            if value.Some? && name == envvar then Values(envvar, env, n) + [value.value] else Values(envvar, env, n)
  {
    hide SplitOnce;
  }

  lemma {:induction false} ValuesWhen(envvar: string, env: seq<string>, n: nat)
    requires n <= |env|
    ensures Values(envvar, env, n) != [] <==> exists k :: 0 <= k < n && '=' !in envvar && envvar + "=" <= env[k]
  {
    if n == 0 {
    } else {
      LineValueWhen(envvar, env[n - 1]);
      ValuesWhen(envvar, env, n - 1);
    }
  }

  function BySpaces(values: seq<string>): string {
    if values == [] then ""
    else if |values| == 1 then values[0]
    else BySpaces(values[..|values| - 1]) + [' '] + values[|values| - 1]
  }

  /** Everything the variable says, as one text. */
  function AllValues(envvar: string, env: Option<seq<string>>): string {
    match env case None => "" case Some(lines) => BySpaces(Values(envvar, lines, |lines|))
  }

  lemma OneMoreValue(values: seq<string>, v: string)
    ensures Answer(BySpaces(values + [v])) ==
            if Answer(BySpaces(values)).Err? then Answer(BySpaces(values)) else Answer(v)
    ensures Pushed(BySpaces(values + [v])) ==
            Pushed(BySpaces(values)) + (if Answer(BySpaces(values)).Err? then [] else Pushed(v))
  {
    hide Answer, Pushed;
    if values == [] {
      NothingFrom();
    } else {
      assert (values + [v])[..|values|] == values;
      ParseCompose(BySpaces(values), ' ', v);
    }
  }

  lemma NothingFrom()
    ensures BySpaces([]) == "" && Answer("") == Ok(()) && Pushed("") == []
  {
  }

  /** Once a value is bad, the ones after it make no difference. */
  lemma {:induction false} BadStaysBad(envvar: string, env: seq<string>, n: nat, m: nat)
    requires n <= m <= |env| && Answer(BySpaces(Values(envvar, env, n))).Err?
    ensures Values(envvar, env, n) != [] && Values(envvar, env, m) != []
    ensures Answer(BySpaces(Values(envvar, env, m))) == Answer(BySpaces(Values(envvar, env, n)))
    ensures Pushed(BySpaces(Values(envvar, env, m))) == Pushed(BySpaces(Values(envvar, env, n)))
    decreases m
  {
    hide Answer, Pushed, BySpaces, LineValue;
    NothingFrom();
    if n == m {
    } else {
      BadStaysBad(envvar, env, n, m - 1);
      if LineValue(envvar, env[m - 1]).Some? {
        OneMoreValue(Values(envvar, env, m - 1), LineValue(envvar, env[m - 1]).value);
      }
    }
  }

  /** Some line mentions the variable. */
  predicate Mentions(envvar: string, env: Option<seq<string>>) {
    env.Some? && exists k :: 0 <= k < |env.value| && '=' !in envvar && envvar + "=" <= env.value[k]
  }

  lemma MentionsWhen(envvar: string, lines: seq<string>)
    ensures Mentions(envvar, Some(lines)) <==> Values(envvar, lines, |lines|) != []
  {
    ValuesWhen(envvar, lines, |lines|);
  }

  lemma NoValues(envvar: string, lines: seq<string>)
    ensures Values(envvar, lines, 0) == []
  {
  }

  lemma NothingMentioned(envvar: string)
    ensures !Mentions(envvar, None)
  {
  }

  /** Goes through the environment line by line; parses as if all values were one text. */
  method ParseContainerEnvVars(env: Option<seq<string>>, envvar: string, present: bool, specs: seq<DomainSpec>)
    returns (r: Result<(), DomainSpecError>, present': bool, specs': seq<DomainSpec>)
    ensures r == Answer(AllValues(envvar, env))
    ensures specs' == specs + Pushed(AllValues(envvar, env))
    ensures present' <==> present || Mentions(envvar, env)
  {
    hide Answer, Pushed, BySpaces, Mentions, LineValue, SplitOnce, Values;
    present', specs', r := present, specs, Ok(());
    NothingFrom();
    NothingMentioned(envvar);
    if env.Some? {
      var lines := env.value;
      MentionsWhen(envvar, lines);
      assert Values(envvar, lines, 0) == [] by { NoValues(envvar, lines); }
      for n := 0 to |lines|
        invariant r == Ok(()) && Answer(BySpaces(Values(envvar, lines, n))) == Ok(())
        invariant specs' == specs + Pushed(BySpaces(Values(envvar, lines, n)))
        invariant present' <==> present || Values(envvar, lines, n) != []
      {
        NextValue(envvar, lines, n);
        var (name, value) := SplitOnce(lines[n], '=');
        if value.None? || name != envvar {
          continue;
        }
        present' := true;
        r, specs' := ParseAll(value.value, specs');
        OneMoreValue(Values(envvar, lines, n), value.value);
        if r.Err? {
          BadStaysBad(envvar, lines, n + 1, |lines|);
          return;
        }
        OkIsUnit(r);
      }
    }
  }

  // ---- inspect ------------------------------------------------------------------------------

  /** The name is the host on a docker network; otherwise the address on the bridge is. */
  function Host(dockerNetwork: bool, name: string, container: Container): string {
    if dockerNetwork then name else container.ipAddress
  }

  /** An inspection's result, given what docker answered. */
  function Inspected(dockerNetwork: bool, envvar: string, name: string, reply: Result<Container, int>)
    : Result<Inspection, InspectionError>
  {
    match reply
    case Err(code) => Err(Docker(code))
    case Ok(container) =>
      var raw := AllValues(envvar, container.env);
      match Answer(raw)
      case Err(e) => Err(BadSpec(e))
      case Ok(_) => Ok(Inspection(Host(dockerNetwork, name, container), Pushed(raw), Mentions(envvar, container.env)))
  }

  method Inspect(dockerNetwork: bool, envvar: string, name: string, reply: Result<Container, int>)
    returns (r: Result<Inspection, InspectionError>)
    ensures r == Inspected(dockerNetwork, envvar, name, reply)
  {
    hide Answer, Pushed, AllValues;
    match reply
    case Err(code) => r := Err(Docker(code));
    case Ok(container) =>
      var host := if dockerNetwork then name else container.ipAddress;
      var parsed, present, specs := ParseContainerEnvVars(container.env, envvar, false, []);
      if parsed.Err? {
        return Err(BadSpec(parsed.error));
      }
      assert [] + Pushed(AllValues(envvar, container.env)) == Pushed(AllValues(envvar, container.env));
      r := Ok(Inspection(host, specs, present));
  }

  /** On a docker network, containers with different names never share a host. */
  lemma NetworkHostsAreDistinct(envvar: string, n1: string, r1: Result<Container, int>, n2: string,
                                r2: Result<Container, int>)
    requires Inspected(true, envvar, n1, r1).Ok? && Inspected(true, envvar, n2, r2).Ok?
    ensures Inspected(true, envvar, n1, r1).value.host == Inspected(true, envvar, n2, r2).value.host <==> n1 == n2
  {
    hide Answer, Pushed, AllValues;
  }
}
