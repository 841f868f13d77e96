/** Modes of a configured device and the actuator calls behind the current one. */
module DeviceModes {
  import opened Wrappers

  /** A step of a mode; `actuator` and `parameters` stand for the match pattern and its setting. */
  datatype Step = Step(actuator: nat, parameters: nat)

  datatype Mode = Mode(name: string, depends: Option<string>, sequence: seq<Step>)

  /** What the actuators do: all work, or the one of step `at` fails or cannot be found. */
  datatype Actuators = AllWork | Stop(at: nat, missing: bool)

  /** An actuator call, and whether it succeeded. */
  datatype Call = Call(step: Step, ok: bool)

  datatype Error = ModeNotFound | WrongCurrentMode | ActuatorFailed

  /** The mode of the device, and every actuator call so far. */
  datatype State = State(current: Option<string>, log: seq<Call>)

  const START := State(None, [])

  /** The first mode of that name. */
  function Find(modes: seq<Mode>, name: string): (found: Option<Mode>)
    ensures found.Some? ==> found.value.name == name && found.value in modes
    ensures found.None? ==> forall i :: 0 <= i < |modes| ==> modes[i].name != name
  {
    if modes == [] then None
    else if modes[0].name == name then Some(modes[0])
    else Find(modes[1..], name)
  }

  function Done(sequence: seq<Step>): (calls: seq<Call>)
    ensures |calls| == |sequence|
  {
    seq(|sequence|, i requires 0 <= i < |sequence| => Call(sequence[i], true))
  }

  predicate Completes(sequence: seq<Step>, actuators: Actuators) {
    actuators.AllWork? || actuators.at >= |sequence|
  }

  /** The calls made for a sequence; a missing actuator is not called. */
  function Calls(sequence: seq<Step>, actuators: Actuators): seq<Call> {
    if Completes(sequence, actuators) then Done(sequence)
    else
      Done(sequence[..actuators.at]) +
      if actuators.missing then [] else [Call(sequence[actuators.at], false)]
  }

  predicate Allowed(current: Option<string>, target: Mode) {
    target.depends.None? || current == target.depends
  }

  function SetMode(modes: seq<Mode>, s: State, name: string, actuators: Actuators): (State, Option<Error>) {
    match Find(modes, name)
    case None => (s, Some(ModeNotFound))
    case Some(target) =>
      if !Allowed(s.current, target) then (s, Some(WrongCurrentMode))
      else
        var log := s.log + Calls(target.sequence, actuators);
        if Completes(target.sequence, actuators) then (State(Some(name), log), None)
        else (State(None, log), Some(ActuatorFailed))
  }

  // ------------------------------------------------------------- answers

  /** The mode at `i` is the first of that name. */
  predicate IsFirst(modes: seq<Mode>, name: string, i: nat) {
    i < |modes| && modes[i].name == name && forall j :: 0 <= j < i ==> modes[j].name != name
  }

  lemma {:induction false} FindsFirst(modes: seq<Mode>, name: string) returns (i: nat)
    ensures if Find(modes, name).Some? then IsFirst(modes, name, i) && Find(modes, name) == Some(modes[i])
            else i == |modes| && forall j :: 0 <= j < |modes| ==> modes[j].name != name
  {
    if modes == [] || modes[0].name == name {
      i := 0;
    } else {
      var rest := FindsFirst(modes[1..], name);
      i := rest + 1;
    }
  }

  lemma FirstIsUnique(modes: seq<Mode>, name: string, i: nat, j: nat)
    requires IsFirst(modes, name, i) && IsFirst(modes, name, j)
    ensures i == j
  {
  }

  /** `made` are the calls of the first `n` steps, all successful. */
  predicate Worked(made: seq<Call>, sequence: seq<Step>, n: nat) {
    n <= |made| && n <= |sequence| && forall i :: 0 <= i < n ==> made[i] == Call(sequence[i], true)
  }

  /** The step that fails, or whose actuator is missing, is one of the sequence. */
  predicate Fails(sequence: seq<Step>, actuators: Actuators) {
    actuators.Stop? && actuators.at < |sequence|
  }

  /** The dependency of the mode, if it has one, is the current mode. */
  predicate Ready(s: State, target: Mode) {
    target.depends.Some? ==> s.current == target.depends
  }

  /** A name no mode has, and a mode whose dependency is not current, are refused with nothing changed. */
  lemma SetModeRefused(modes: seq<Mode>, s: State, name: string, actuators: Actuators)
    ensures
      (forall i :: 0 <= i < |modes| ==> modes[i].name != name) ==>
        SetMode(modes, s, name, actuators) == (s, Some(ModeNotFound))
    ensures
      forall i: nat :: IsFirst(modes, name, i) && !Ready(s, modes[i]) ==>
        SetMode(modes, s, name, actuators) == (s, Some(WrongCurrentMode))
  {
    var first := FindsFirst(modes, name);
  }

  /** Otherwise its steps are taken in order: to the end, which makes it the current mode, or up to a step
      that fails, with a call, or whose actuator is missing, without one; the device is then in no mode. */
  lemma SetModeTaken(modes: seq<Mode>, s: State, name: string, actuators: Actuators, i: nat)
    returns (made: seq<Call>)
    requires IsFirst(modes, name, i) && Ready(s, modes[i])
    ensures
      var (next, error) := SetMode(modes, s, name, actuators);
      var sequence := modes[i].sequence;
      && next.log == s.log + made
      && if !Fails(sequence, actuators) then
           && error == None && next.current == Some(name)
           && |made| == |sequence| && Worked(made, sequence, |sequence|)
         else
           var at := actuators.at;
           && error == Some(ActuatorFailed) && next.current == None && Worked(made, sequence, at)
           && (if actuators.missing then |made| == at
               else |made| == at + 1 && made[at] == Call(sequence[at], false))
  {
    var first := FindsFirst(modes, name);
    FirstIsUnique(modes, name, i, first);
    made := Calls(modes[i].sequence, actuators);
  }

  /** The answer is no error just when there is a mode of that name, the first of which may follow the
      current mode, and none of its steps fails or misses its actuator. */
  lemma SetModeSucceeds(modes: seq<Mode>, s: State, name: string, actuators: Actuators)
    ensures
      SetMode(modes, s, name, actuators).1.None? <==>
        exists i: nat :: IsFirst(modes, name, i) && Ready(s, modes[i]) && !Fails(modes[i].sequence, actuators)
  {
    var i := FindsFirst(modes, name);
    SetModeRefused(modes, s, name, actuators);
    if IsFirst(modes, name, i) && Ready(s, modes[i]) {
      var made := SetModeTaken(modes, s, name, actuators, i);
    }
    forall j: nat | IsFirst(modes, name, j)
      ensures IsFirst(modes, name, i) && i == j
    {
      if IsFirst(modes, name, i) {
        FirstIsUnique(modes, name, i, j);
      }
    }
  }

  datatype Request = Request(name: string, actuators: Actuators)

  function Run(modes: seq<Mode>, s: State, requests: seq<Request>): State
    decreases |requests|
  {
    if requests == [] then s
    else Run(modes, SetMode(modes, s, requests[0].name, requests[0].actuators).0, requests[1..])
  }

  // -------------------------------------------------------------- chains

  /** From a mode without dependency up to `name`, each depending on the one before it. */
  ghost predicate IsChain(modes: seq<Mode>, chain: seq<Mode>, name: string) {
    && chain != [] && chain[0].depends.None? && chain[|chain| - 1].name == name
    && (forall i :: 0 <= i < |chain| ==> Find(modes, chain[i].name) == Some(chain[i]))
    && forall i :: 0 < i < |chain| ==> chain[i].depends == Some(chain[i - 1].name)
  }

  function Steps(chain: seq<Mode>): seq<Step> {
    if chain == [] then [] else Steps(chain[..|chain| - 1]) + chain[|chain| - 1].sequence
  }

  predicate EndsWith<T(==)>(s: seq<T>, suffix: seq<T>) {
    |suffix| <= |s| && s[|s| - |suffix|..] == suffix
  }

  /** The log ends with the complete sequences of the whole chain up to the current mode. */
  ghost predicate Backed(modes: seq<Mode>, s: State) {
    s.current.Some? ==>
      exists chain :: IsChain(modes, chain, s.current.value) && EndsWith(s.log, Done(Steps(chain)))
  }

  lemma Extends(modes: seq<Mode>, chain: seq<Mode>, name: string, target: Mode)
    requires target.depends.Some? ==> IsChain(modes, chain, target.depends.value)
    requires target.depends.None? ==> chain == []
    requires Find(modes, name) == Some(target)
    ensures IsChain(modes, chain + [target], name)
    ensures Done(Steps(chain + [target])) == Done(Steps(chain)) + Done(target.sequence)
  {
    assert (chain + [target])[..|chain|] == chain;
  }

  lemma EndsLonger<T>(s: seq<T>, suffix: seq<T>, more: seq<T>)
    requires EndsWith(s, suffix)
    ensures EndsWith(s + more, suffix + more)
  {
  }

  lemma OnTop(modes: seq<Mode>, log: seq<Call>, chain: seq<Mode>, name: string, target: Mode)
    requires target.depends.Some? ==> IsChain(modes, chain, target.depends.value) && EndsWith(log, Done(Steps(chain)))
    requires target.depends.None? ==> chain == []
    requires Find(modes, name) == Some(target)
    ensures Backed(modes, State(Some(name), log + Done(target.sequence)))
  {
    Extends(modes, chain, name, target);
    EndsLonger(log, Done(Steps(chain)), Done(target.sequence));
  }

  lemma SetModeBacked(modes: seq<Mode>, s: State, name: string, actuators: Actuators)
    requires Backed(modes, s)
    ensures Backed(modes, SetMode(modes, s, name, actuators).0)
  {
    var found := Find(modes, name);
    if found.Some? && Allowed(s.current, found.value) && Completes(found.value.sequence, actuators) {
      var target := found.value;
      if target.depends.Some? {
        var chain :| IsChain(modes, chain, s.current.value) && EndsWith(s.log, Done(Steps(chain)));
        OnTop(modes, s.log, chain, name, target);
      } else {
        OnTop(modes, s.log, [], name, target);
      }
    }
  }

  /** Over every run of calls, with actuators that fail or go missing at any step: a current mode is
      backed by its whole chain of dependencies. */
  lemma {:induction false} EveryRunIsBacked(modes: seq<Mode>, s: State, requests: seq<Request>)
    requires Backed(modes, s)
    ensures Backed(modes, Run(modes, s, requests))
    decreases |requests|
  {
    if requests != [] {
      var first := requests[0];
      SetModeBacked(modes, s, first.name, first.actuators);
      EveryRunIsBacked(modes, SetMode(modes, s, first.name, first.actuators).0, requests[1..]);
    }
  }

  lemma {:induction false} RunConcat(modes: seq<Mode>, s: State, a: seq<Request>, b: seq<Request>)
    ensures Run(modes, s, a + b) == Run(modes, Run(modes, s, a), b)
    decreases |a|
  {
    if a == [] {
      assert a + b == b;
    } else {
      assert (a + b)[1..] == a[1..] + b;
      RunConcat(modes, SetMode(modes, s, a[0].name, a[0].actuators).0, a[1..], b);
    }
  }

  /** Going through a chain with working actuators gets to its end from any state. */
  lemma {:induction false} Climb(modes: seq<Mode>, s: State, chain: seq<Mode>, name: string)
    returns (requests: seq<Request>)
    requires IsChain(modes, chain, name)
    ensures Run(modes, s, requests).current == Some(name)
    decreases |chain|
  {
    var n := |chain| - 1;
    var last := [Request(name, AllWork)];
    if n == 0 {
      requests := last;
      assert last[1..] == [];
    } else {
      assert chain[n].depends == Some(chain[n - 1].name);
      var before := Climb(modes, s, chain[..n], chain[n - 1].name);
      requests := before + last;
      RunConcat(modes, s, before, last);
      assert last[1..] == [];
    }
  }

  ghost predicate Reaches(modes: seq<Mode>, s: State, name: string) {
    exists requests :: Run(modes, s, requests).current == Some(name)
  }

  /** A mode can be reached just when its dependencies form a chain that ends. */
  lemma ReachedByChain(modes: seq<Mode>, name: string)
    ensures Reaches(modes, START, name) <==> exists chain :: IsChain(modes, chain, name)
  {
    if requests :| Run(modes, START, requests).current == Some(name) {
      EveryRunIsBacked(modes, START, requests);
    }
    if chain :| IsChain(modes, chain, name) {
      var requests := Climb(modes, START, chain, name);
    }
  }

  // -------------------------------------------------------------- cycles

  /** The mode `k` dependencies below `name`. */
  function Below(modes: seq<Mode>, name: string, k: nat): Option<string>
    decreases k
  {
    match Find(modes, name)
    case None => None
    case Some(m) =>
      if k == 0 then Some(name)
      else if m.depends.None? then None
      else Below(modes, m.depends.value, k - 1)
  }

  /** Following the dependencies of `name` comes back to a mode. */
  ghost predicate Cyclic(modes: seq<Mode>, name: string) {
    exists i: nat, j: nat :: i < j && Below(modes, name, i).Some? && Below(modes, name, i) == Below(modes, name, j)
  }

  lemma {:induction false} BelowAdds(modes: seq<Mode>, name: string, i: nat, k: nat)
    requires Below(modes, name, i).Some?
    ensures Below(modes, name, i + k) == Below(modes, Below(modes, name, i).value, k)
    decreases i
  {
    if i > 0 {
      BelowAdds(modes, Find(modes, name).value.depends.value, i - 1, k);
    }
  }

  /** Below the end of a chain are its modes, and nothing below the first. */
  lemma {:induction false} BelowChain(modes: seq<Mode>, chain: seq<Mode>, name: string, k: nat)
    requires IsChain(modes, chain, name)
    ensures Below(modes, name, k).Some? <==> k < |chain|
    decreases |chain|
  {
    var n := |chain| - 1;
    if k > 0 && n > 0 {
      assert chain[n].depends == Some(chain[n - 1].name);
      BelowChain(modes, chain[..n], chain[n - 1].name, k - 1);
    }
  }

  /** A mode on or behind a dependency cycle is never reached. */
  lemma CyclesAreOutOfReach(modes: seq<Mode>, name: string)
    requires Cyclic(modes, name)
    ensures !Reaches(modes, START, name)
  {
    ReachedByChain(modes, name);
    if chain :| IsChain(modes, chain, name) {
      var i: nat, j: nat :| i < j && Below(modes, name, i).Some? && Below(modes, name, i) == Below(modes, name, j);
      BelowChain(modes, chain, name, j);
      var k := |chain| - j;
      BelowAdds(modes, name, i, k);
      BelowAdds(modes, name, j, k);
      BelowChain(modes, chain, name, i + k);
      BelowChain(modes, chain, name, j + k);
    }
  }
}
