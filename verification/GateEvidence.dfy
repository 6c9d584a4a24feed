/** Required delivery gates: refused unless each one is present and passed, and nothing failed. */
module GateEvidence {
  import opened Wrappers

  const KNOWN_GATES := {"filesystem", "compose", "security", "rollout", "health", "migration", "rollback", "smoke"}
  const ALLOWED_STATUSES := {"passed", "failed", "skipped"}
  const MAX_SCALAR: nat := 512

  const MISSING_GATE := "missing required gate: "
  const SKIPPED_GATE := "required gate skipped: "

  /** One gate's evidence; an empty reason is the same as none. */
  datatype Gate = Gate(name: string, status: string, target: string, reason: string)

  datatype GateError = NoRequiredGate | RepeatedRequiredGate | UnknownGate | BadStatus | BadScalar | RepeatedGate

  datatype Evaluation = Evaluation(passed: bool, failureReason: Option<string>, evidence: seq<Gate>)

  predicate SingleLine(text: string) {
    '\n' !in text && '\r' !in text
  }

  /** Short, on one line, and nothing like a secret by the given pattern. */
  predicate SafeScalar(secretLike: string -> bool, text: string) {
    SingleLine(text) && |text| <= MAX_SCALAR && !secretLike(text)
  }

  function CheckGate(secretLike: string -> bool, g: Gate): Option<GateError> {
    if g.name !in KNOWN_GATES then Some(UnknownGate)
    else if g.status !in ALLOWED_STATUSES then Some(BadStatus)
    else if g.target == "" || !SafeScalar(secretLike, g.target) || !SafeScalar(secretLike, g.reason) then
      Some(BadScalar)
    else None
  }

  function CheckRequired(required: seq<string>): Option<GateError> {
    if required == [] then Some(NoRequiredGate)
    else if exists i, j :: 0 <= i < j < |required| && required[i] == required[j] then Some(RepeatedRequiredGate)
    else if exists i :: 0 <= i < |required| && required[i] !in KNOWN_GATES then Some(UnknownGate)
    else None
  }

  predicate Mentions(gates: seq<Gate>, name: string) {
    exists g :: g in gates && g.name == name
  }

  /** The first problem in the evidence, in its own order. */
  function CheckGates(secretLike: string -> bool, gates: seq<Gate>): Option<GateError> {
    if gates == [] then
      None
    else
      var init, last := gates[..|gates| - 1], gates[|gates| - 1];
      var earlier := CheckGates(secretLike, init);
      if earlier.Some? then earlier
      else if CheckGate(secretLike, last).Some? then CheckGate(secretLike, last)
      else if Mentions(init, last.name) then Some(RepeatedGate)
      else None
  }

  function Named(gates: seq<Gate>, name: string): (g: Gate)
    requires Mentions(gates, name)
    ensures g in gates && g.name == name
  {
    if gates[0].name == name then gates[0] else Named(gates[1..], name)
  }

  function FirstMissing(gates: seq<Gate>, required: seq<string>): Option<string> {
    if required == [] then None
    else if !Mentions(gates, required[0]) then Some(required[0])
    else FirstMissing(gates, required[1..])
  }

  function FirstSkipped(gates: seq<Gate>, required: seq<string>): Option<string>
    requires forall r | r in required :: Mentions(gates, r)
  {
    if required == [] then None
    else if Named(gates, required[0]).status == "skipped" then Some(required[0])
    else FirstSkipped(gates, required[1..])
  }

  function FirstFailed(gates: seq<Gate>): Option<Gate> {
    if gates == [] then None
    else if gates[0].status == "failed" then Some(gates[0])
    else FirstFailed(gates[1..])
  }

  function Pick(gates: seq<Gate>, names: seq<string>): seq<Gate>
    requires forall n | n in names :: Mentions(gates, n)
  {
    if names == [] then [] else [Named(gates, names[0])] + Pick(gates, names[1..])
  }

  function Others(gates: seq<Gate>, names: seq<string>): seq<Gate> {
    if gates == [] then []
    else (if gates[0].name in names then [] else [gates[0]]) + Others(gates[1..], names)
  }

  function FailureText(g: Gate): string {
    g.name + ": " + (if g.reason == "" then "gate failed" else g.reason)
  }

  lemma {:induction false} NoneMissing(gates: seq<Gate>, required: seq<string>)
    ensures FirstMissing(gates, required).None? <==> forall r | r in required :: Mentions(gates, r)
    ensures FirstMissing(gates, required).Some? ==>
              FirstMissing(gates, required).value in required && !Mentions(gates, FirstMissing(gates, required).value)
  {
    if required != [] {
      NoneMissing(gates, required[1..]);
      assert required == [required[0]] + required[1..];
    }
  }

  function Judge(gates: seq<Gate>, required: seq<string>): Evaluation {
    NoneMissing(gates, required);
    var missing := FirstMissing(gates, required);
    if missing.Some? then
      Evaluation(false, Some(MISSING_GATE + missing.value), gates)
    else
      var skipped := FirstSkipped(gates, required);
      if skipped.Some? then
        Evaluation(false, Some(SKIPPED_GATE + skipped.value), gates)
      else
        var failed := FirstFailed(gates);
        if failed.Some? then
          Evaluation(false, Some(FailureText(failed.value)), gates)
        else
          Evaluation(true, None, Pick(gates, required) + Others(gates, required))
  }

  function Evaluate(secretLike: string -> bool, gates: seq<Gate>, required: seq<string>)
    : Result<Evaluation, GateError>
  {
    if CheckRequired(required).Some? then Failure(CheckRequired(required).value)
    else if CheckGates(secretLike, gates).Some? then Failure(CheckGates(secretLike, gates).value)
    else Success(Judge(gates, required))
  }

  method EvaluateGateEvidence(secretLike: string -> bool, gates: seq<Gate>, required: seq<string>)
    returns (r: Result<Evaluation, GateError>)
    ensures r == Evaluate(secretLike, gates, required)
  {
    var refused := CheckRequired(required);
    if refused.Some? {
      return Failure(refused.value);
    }
    var names: set<string> := {};
    for i := 0 to |gates|
      invariant CheckGates(secretLike, gates[..i]).None?
      invariant forall n :: n in names <==> Mentions(gates[..i], n)
    {
      assert gates[..i + 1][..i] == gates[..i];
      var problem := CheckGate(secretLike, gates[i]);
      if problem.None? && gates[i].name in names {
        problem := Some(RepeatedGate);
      }
      if problem.Some? {
        LaterProblemsHidden(secretLike, gates, i + 1);
        return Failure(problem.value);
      }
      names := names + {gates[i].name};
      assert gates[..i + 1] == gates[..i] + [gates[i]];
    }
    assert gates[..|gates|] == gates;
    return Success(Judge(gates, required));
  }

  lemma {:induction false} LaterProblemsHidden(secretLike: string -> bool, gates: seq<Gate>, k: nat)
    requires k <= |gates| && CheckGates(secretLike, gates[..k]).Some?
    ensures CheckGates(secretLike, gates) == CheckGates(secretLike, gates[..k])
    decreases |gates| - k
  {
    if k < |gates| {
      var init := gates[..|gates| - 1];
      assert init[..k] == gates[..k];
      LaterProblemsHidden(secretLike, init, k);
    } else {
      assert gates[..k] == gates;
    }
  }

  lemma {:induction false} CheckedGates(secretLike: string -> bool, gates: seq<Gate>)
    requires CheckGates(secretLike, gates).None?
    ensures forall g | g in gates :: CheckGate(secretLike, g).None?
    ensures forall i, j | 0 <= i < j < |gates| :: gates[i].name != gates[j].name
  {
    if gates != [] {
      var init := gates[..|gates| - 1];
      CheckedGates(secretLike, init);
      assert gates == init + [gates[|gates| - 1]];
      forall i, j | 0 <= i < j < |gates|
        ensures gates[i].name != gates[j].name
      {
        assert gates[i] == init[i] && init[i] in init;
      }
    }
  }

  predicate Unique(gates: seq<Gate>) {
    forall i, j | 0 <= i < j < |gates| :: gates[i].name != gates[j].name
  }

  lemma NamedIsUnique(gates: seq<Gate>, g: Gate)
    requires Unique(gates) && g in gates
    ensures Mentions(gates, g.name) && Named(gates, g.name) == g
  {
  }

  lemma {:induction false} SkippedMeans(gates: seq<Gate>, required: seq<string>)
    requires forall r | r in required :: Mentions(gates, r)
    ensures FirstSkipped(gates, required).None? <==> forall r | r in required :: Named(gates, r).status != "skipped"
    ensures FirstSkipped(gates, required).Some? ==> FirstSkipped(gates, required).value in required
  {
    if required != [] {
      SkippedMeans(gates, required[1..]);
      assert required[0] in required;
      assert forall r | r in required :: r == required[0] || r in required[1..];
    }
  }

  lemma {:induction false} FailedMeans(gates: seq<Gate>)
    ensures FirstFailed(gates).None? <==> forall g | g in gates :: g.status != "failed"
    ensures FirstFailed(gates).Some? ==>
              FirstFailed(gates).value in gates && FirstFailed(gates).value.status == "failed"
  {
    if gates != [] {
      FailedMeans(gates[1..]);
      assert gates == [gates[0]] + gates[1..];
    }
  }

  lemma JudgedPassedIff(gates: seq<Gate>, required: seq<string>)
    requires Unique(gates) && (forall g | g in gates :: g.status in ALLOWED_STATUSES)
    ensures Judge(gates, required).passed <==> AllPassed(gates, required)
  {
    NoneMissing(gates, required);
    forall g | g in gates
      ensures Named(gates, g.name) == g
    {
      NamedIsUnique(gates, g);
    }
    if FirstMissing(gates, required).None? {
      SkippedMeans(gates, required);
      FailedMeans(gates);
      if Judge(gates, required).passed {
        forall r | r in required
          ensures PassedIn(gates, r)
        {
          var g := Named(gates, r);
          assert g in gates && g.status in ALLOWED_STATUSES;
        }
      }
    } else {
      assert !PassedIn(gates, FirstMissing(gates, required).value);
    }
  }

  ghost predicate PassedIn(gates: seq<Gate>, name: string) {
    exists g :: g in gates && g.name == name && g.status == "passed"
  }

  ghost predicate AllPassed(gates: seq<Gate>, required: seq<string>) {
    (forall r | r in required :: PassedIn(gates, r)) && (forall g | g in gates :: g.status != "failed")
  }

  /**
   An evaluation passes exactly when every required gate reported passed and no
   gate at all, required or not, reported failed; only then is there no reason.
   */
  lemma PassesIff(secretLike: string -> bool, gates: seq<Gate>, required: seq<string>)
    requires Evaluate(secretLike, gates, required).Success?
    ensures var e := Evaluate(secretLike, gates, required).value;
            && (e.passed <==> AllPassed(gates, required))
            && (e.passed <==> e.failureReason.None?)
  {
    CheckedGates(secretLike, gates);
    JudgedPassedIff(gates, required);
  }

  /** The evidence of an evaluation is what was supplied: nothing lost, nothing invented, each gate once. */
  lemma EvidenceIsKept(secretLike: string -> bool, gates: seq<Gate>, required: seq<string>)
    requires Evaluate(secretLike, gates, required).Success?
    ensures var e := Evaluate(secretLike, gates, required).value;
            && (forall g :: g in e.evidence <==> g in gates)
            && |e.evidence| == |gates|
            && (forall g | g in e.evidence :: CheckGate(secretLike, g).None?)
  {
    CheckedGates(secretLike, gates);
    NoneMissing(gates, required);
    if forall r | r in required :: Mentions(gates, r) {
      PickedGates(gates, required);
      OtherGates(gates, required);
      forall g | g in gates
        ensures Named(gates, g.name) == g
      {
        NamedIsUnique(gates, g);
      }
      RequiredIsDistinct(required);
      SplitCount(gates, required);
    }
  }

  lemma RequiredIsDistinct(required: seq<string>)
    requires CheckRequired(required).None?
    ensures forall i, j | 0 <= i < j < |required| :: required[i] != required[j]
  {
  }

  lemma {:induction false} PickedGates(gates: seq<Gate>, names: seq<string>)
    requires forall n | n in names :: Mentions(gates, n)
    ensures |Pick(gates, names)| == |names|
    ensures forall g | g in Pick(gates, names) :: g in gates && g.name in names
    ensures forall n | n in names :: Named(gates, n) in Pick(gates, names)
  {
    if names != [] {
      PickedGates(gates, names[1..]);
      assert names == [names[0]] + names[1..];
    }
  }

  lemma {:induction false} OtherGates(gates: seq<Gate>, names: seq<string>)
    ensures forall g :: g in Others(gates, names) <==> g in gates && g.name !in names
  {
    if gates != [] {
      OtherGates(gates[1..], names);
      assert gates == [gates[0]] + gates[1..];
    }
  }

  /** Counting: the gates with a listed name are as many as the names. */
  lemma {:induction false} SplitCount(gates: seq<Gate>, names: seq<string>)
    requires Unique(gates) && (forall n | n in names :: Mentions(gates, n))
    requires forall i, j | 0 <= i < j < |names| :: names[i] != names[j]
    ensures |names| + |Others(gates, names)| == |gates|
  {
    if names == [] {
      NoNamesKeepAll(gates);
    } else {
      assert Mentions(gates, names[0]);
      var g := gates[0];
      assert gates == [g] + gates[1..];
      if i :| 0 <= i < |names| && names[i] == g.name {
        var rest := names[..i] + names[i + 1..];
        forall n | n in rest
          ensures Mentions(gates[1..], n)
        {
          assert n in names && n != g.name;
        }
        SplitCount(gates[1..], rest);
        SameOthers(gates[1..], names, rest, g.name);
      } else {
        forall n | n in names
          ensures Mentions(gates[1..], n)
        {
          assert Mentions(gates, n);
        }
        SplitCount(gates[1..], names);
      }
    }
  }

  lemma {:induction false} NoNamesKeepAll(gates: seq<Gate>)
    ensures Others(gates, []) == gates
  {
    if gates != [] {
      NoNamesKeepAll(gates[1..]);
    }
  }

  lemma {:induction false} SameOthers(gates: seq<Gate>, names: seq<string>, rest: seq<string>, name: string)
    requires forall g | g in gates :: g.name != name
    requires forall n :: n in names <==> n in rest || n == name
    ensures Others(gates, names) == Others(gates, rest)
  {
    if gates != [] {
      SameOthers(gates[1..], names, rest, name);
      assert gates[0] in gates;
    }
  }
}
