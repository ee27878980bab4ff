/** What the inspection of a container answers, said in terms of docker's reply and the lines of the environment. */
module InspectionMeaning {
  import opened Wrappers
  import opened Text
  import opened DomainSpecs
  import opened SpecMeaning
  import opened DockerInspector

  function Lines(container: Container): seq<string> {
    match container.env case None => [] case Some(lines) => lines
  }

  /** The line has the variable, and `After` is what it says. */
  predicate Has(envvar: string, line: string) {
    '=' !in envvar && envvar + "=" <= line
  }

  function After(envvar: string, line: string): string
    requires Has(envvar, line)
  {
    line[|envvar| + 1..]
  }

  /** The line has the variable, and some option in it is bad. */
  ghost predicate BadLine(envvar: string, line: string) {
    Has(envvar, line) && !AllPiecesGood(Captures(After(envvar, line)))
  }

  ghost predicate NoBadLine(envvar: string, lines: seq<string>, n: nat)
    requires n <= |lines|
  {
    forall k :: 0 <= k < n ==> !BadLine(envvar, lines[k])
  }

  /** The specs in the first `n` lines, in order. */
  function SpecsIn(envvar: string, lines: seq<string>, n: nat): seq<DomainSpec>
    requires n <= |lines|
  {
    if n == 0 then []
    else SpecsIn(envvar, lines, n - 1) +
         if Has(envvar, lines[n - 1]) then Pushed(After(envvar, lines[n - 1])) else []
  }

  /** The error is about the first bad option in the first bad line. */
  ghost predicate BlamesFirstLine(envvar: string, lines: seq<string>, e: DomainSpecError) {
    exists k, m :: && 0 <= k < |lines| && BadLine(envvar, lines[k]) && NoBadLine(envvar, lines, k)
                   && FailsAs(Captures(After(envvar, lines[k])), e, m)
  }

  lemma ValueIs(envvar: string, line: string)
    ensures LineValue(envvar, line) == if Has(envvar, line) then Some(After(envvar, line)) else None
  {
    hide LineValue;
    LineValueWhen(envvar, line);
    if Has(envvar, line) {
      var value := LineValue(envvar, line).value;
      assert line[|envvar + "="|..] == value;
    }
  }

  lemma {:induction false} ValuesMean(envvar: string, lines: seq<string>, n: nat)
    requires n <= |lines|
    ensures var raw := BySpaces(Values(envvar, lines, n));
            && (Answer(raw).Ok? <==> NoBadLine(envvar, lines, n))
            && (Answer(raw).Ok? ==> Pushed(raw) == SpecsIn(envvar, lines, n))
            && (Answer(raw).Err? ==> BlamesFirstLine(envvar, lines, Answer(raw).error))
  {
    hide Answer, Pushed, BySpaces, LineValue, Has, AllPiecesGood, FailsAs, Captures, After;
    if n == 0 {
      NothingFrom();
      NoValues(envvar, lines);
    } else {
      var line := lines[n - 1];
      ValuesMean(envvar, lines, n - 1);
      ValueIs(envvar, line);
      if Has(envvar, line) {
        OneMoreValue(Values(envvar, lines, n - 1), After(envvar, line));
        FailsOnFirstBadOption(After(envvar, line));
      }
    }
  }

  /** An inspection succeeds if and only if docker answers and no option in any line with the variable is bad. It then
      has the container's host, the specs of all its lines, and whether there was any. Otherwise the error is docker's,
      or names the first bad option. */
  lemma InspectionMeans(dockerNetwork: bool, envvar: string, name: string, reply: Result<Container, int>)
    ensures reply.Err? ==> Inspected(dockerNetwork, envvar, name, reply) == Err(Docker(reply.error))
    ensures reply.Ok? ==>
              var r, lines := Inspected(dockerNetwork, envvar, name, reply), Lines(reply.value);
              && (r.Ok? <==> NoBadLine(envvar, lines, |lines|))
              && (r.Ok? ==>
                    && r.value.host == (if dockerNetwork then name else reply.value.ipAddress)
                    && r.value.specs == SpecsIn(envvar, lines, |lines|)
                    && (r.value.envvarPresent <==> exists k :: 0 <= k < |lines| && Has(envvar, lines[k])))
              && (r.Err? ==> r.error.BadSpec? && BlamesFirstLine(envvar, lines, r.error.cause))
  {
    hide Answer, Pushed, BySpaces, Values, BadLine, FailsAs, Captures, BlamesFirstLine, NoBadLine, SpecsIn;
    if reply.Ok? {
      var lines := Lines(reply.value);
      ValuesMean(envvar, lines, |lines|);
      NoLinesAtAll(envvar);
    }
  }

  lemma NoLinesAtAll(envvar: string)
    ensures BySpaces(Values(envvar, [], 0)) == ""
  {
  }
}
