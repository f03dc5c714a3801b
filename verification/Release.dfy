/** What a release approval demands of the unit's components and measurements, and what installing keeps. */
module Release {
  import opened Wrappers
  import opened Execution

  datatype Traceability = Serial | Lot | SerialOrLot | SerialAndLot

  /** Quantities are counted in ten-thousandths, the precision of the stored decimals. */
  datatype Requirement = Requirement(step: nat, part: string, required: int, traceability: Traceability, active: bool)

  datatype Component = Component(step: Option<nat>, part: string, serial: string, lot: string, quantity: int)

  datatype Parameter = Parameter(id: nat, step: nat, code: string)

  datatype Verdict = Pending | Pass | Fail | NotApplicable

  datatype Measurement = Measurement(parameter: Option<nat>, step: Option<nat>, code: string, at: int,
                                     value: Option<int>, text: string, min: Option<int>, max: Option<int>)

  /** The active requirements and required parameters of the version, and what the unit has on file. */
  datatype Dossier = Dossier(requirements: seq<Requirement>, components: seq<Component>,
                             parameters: seq<Parameter>, measurements: seq<Measurement>)

  // ----- Components -----

  predicate Traceable(r: Requirement, serial: string, lot: string) {
    match r.traceability
    case Serial => serial != ""
    case Lot => lot != ""
    case SerialOrLot => serial != "" || lot != ""
    case SerialAndLot => serial != "" && lot != ""
  }

  predicate Matches(r: Requirement, c: Component) {
    c.step == Some(r.step) && c.part == r.part
  }

  function Installed(r: Requirement, components: seq<Component>): int {
    if components == [] then 0
    else
      var last := components[|components| - 1];
      Installed(r, components[..|components| - 1]) + if Matches(r, last) then last.quantity else 0
  }

  /** Enough pieces, every one of them traceable as required. */
  predicate Satisfied(r: Requirement, components: seq<Component>) {
    && Installed(r, components) >= r.required
    && forall j | 0 <= j < |components| && Matches(r, components[j]) ::
         Traceable(r, components[j].serial, components[j].lot)
  }

  datatype Issue = TooFew(requirement: nat) | Untraced(requirement: nat, component: nat)

  /** The issue is one the unit has. */
  predicate IsIssue(issue: Issue, requirements: seq<Requirement>, components: seq<Component>) {
    issue.requirement < |requirements| &&
    var r := requirements[issue.requirement];
    match issue
    case TooFew(_) => Installed(r, components) < r.required
    case Untraced(_, j) =>
      j < |components| && Matches(r, components[j]) && !Traceable(r, components[j].serial, components[j].lot)
  }

  /** The issues, requirement by requirement, are exactly those the unit has. */
  method AsBuiltIssues(requirements: seq<Requirement>, components: seq<Component>) returns (issues: seq<Issue>)
    ensures forall issue :: issue in issues <==> IsIssue(issue, requirements, components)
    ensures issues == [] <==> forall i | 0 <= i < |requirements| :: Satisfied(requirements[i], components)
  {
    issues := [];
    for i := 0 to |requirements|
      invariant forall issue :: issue in issues <==> issue.requirement < i && IsIssue(issue, requirements, components)
    {
      var r := requirements[i];
      var quantity := 0;
      for j := 0 to |components|
        invariant quantity == Installed(r, components[..j])
      {
        assert components[..j + 1][..j] == components[..j];
        if Matches(r, components[j]) { quantity := quantity + components[j].quantity; }
      }
      assert components[..|components|] == components;
      if quantity < r.required { issues := issues + [TooFew(i)]; }
      for j := 0 to |components|
        invariant forall issue :: issue in issues <==>
          IsIssue(issue, requirements, components)
          && (issue.requirement < i || (issue.requirement == i && (issue.Untraced? ==> issue.component < j)))
      {
        if Matches(r, components[j]) && !Traceable(r, components[j].serial, components[j].lot) {
          issues := issues + [Untraced(i, j)];
        }
      }
    }
    NoIssuesMeansSatisfied(requirements, components);
    if issues != [] {
      assert issues[0] in issues;
    }
  }

  lemma NoIssuesMeansSatisfied(requirements: seq<Requirement>, components: seq<Component>)
    ensures (forall issue :: !IsIssue(issue, requirements, components))
            <==> forall i | 0 <= i < |requirements| :: Satisfied(requirements[i], components)
  {
    if forall issue :: !IsIssue(issue, requirements, components) {
      forall i | 0 <= i < |requirements|
        ensures Satisfied(requirements[i], components)
      {
        assert !IsIssue(TooFew(i), requirements, components);
        forall j | 0 <= j < |components| && Matches(requirements[i], components[j])
          ensures Traceable(requirements[i], components[j].serial, components[j].lot)
        {
          assert !IsIssue(Untraced(i, j), requirements, components);
        }
      }
    }
  }

  // ----- Measurements -----

  /** The result a measurement gets when it is saved. */
  function Evaluate(m: Measurement): Verdict {
    if m.value.None? then if m.text != "" then NotApplicable else Verdict.Pending
    else if m.min.Some? && m.value.value < m.min.value then Fail
    else if m.max.Some? && m.value.value > m.max.value then Fail
    else Pass
  }

  predicate Related(p: Parameter, m: Measurement) {
    m.parameter == Some(p.id) || (m.step == Some(p.step) && m.code == p.code)
  }

  /** Position of the parameter's last measurement by time and then by key. */
  function LatestMeasurement(p: Parameter, ms: seq<Measurement>): (latest: Option<nat>)
    ensures latest.None? ==> forall j | 0 <= j < |ms| :: !Related(p, ms[j])
    ensures latest.Some? ==> latest.value < |ms| && Related(p, ms[latest.value])
    ensures latest.Some? ==> forall j | 0 <= j < |ms| && Related(p, ms[j]) ::
              ms[j].at < ms[latest.value].at || (ms[j].at == ms[latest.value].at && j <= latest.value)
  {
    if ms == [] then None
    else
      var n := |ms| - 1;
      var earlier := LatestMeasurement(p, ms[..n]);
      if Related(p, ms[n]) && (earlier.None? || ms[earlier.value].at <= ms[n].at) then Some(n) else earlier
  }

  /** A measurement no earlier than all others becomes the parameter's latest if it names it, or its step and code. */
  lemma {:induction false} NewMeasurementDecides(p: Parameter, ms: seq<Measurement>, m: Measurement)
    requires forall j | 0 <= j < |ms| :: ms[j].at <= m.at
    ensures LatestMeasurement(p, ms + [m])
         == if m.parameter == Some(p.id) || (m.step == Some(p.step) && m.code == p.code) then Some(|ms|)
            else LatestMeasurement(p, ms)
  {
    assert (ms + [m])[..|ms|] == ms;
  }

  /** The parameter was measured, and its latest measurement is within its limits or a plain text. */
  predicate Measured(p: Parameter, ms: seq<Measurement>) {
    var latest := LatestMeasurement(p, ms);
    latest.Some? &&
    var m := ms[latest.value];
    match m.value
    case None => m.text != ""
    case Some(v) => (m.min.Some? ==> m.min.value <= v) && (m.max.Some? ==> v <= m.max.value)
  }

  method MeasurementIssues(parameters: seq<Parameter>, ms: seq<Measurement>) returns (issues: seq<nat>)
    ensures forall i: nat :: i in issues <==> i < |parameters| && !Measured(parameters[i], ms)
    ensures issues == [] <==> forall i | 0 <= i < |parameters| :: Measured(parameters[i], ms)
  {
    issues := [];
    for i := 0 to |parameters|
      invariant forall k: nat :: k in issues <==> k < i && !Measured(parameters[k], ms)
    {
      var latest := LatestMeasurement(parameters[i], ms);
      if latest.None? {
        issues := issues + [i];
        continue;
      }
      var result := Evaluate(ms[latest.value]);
      if result.Fail? {
        issues := issues + [i];
      } else if result.Pending? {
        issues := issues + [i];
      }
    }
    if issues != [] { assert issues[0] in issues; }
  }

  // ----- The approval -----

  predicate Documented(d: Dossier) {
    && (forall i | 0 <= i < |d.requirements| && d.requirements[i].active :: Satisfied(d.requirements[i], d.components))
    && (forall i | 0 <= i < |d.parameters| :: Measured(d.parameters[i], d.measurements))
  }

  function ActiveRequirements(requirements: seq<Requirement>): (active: seq<Requirement>)
    ensures forall r :: r in active <==> r in requirements && r.active
  {
    if requirements == [] then []
    else (if requirements[0].active then [requirements[0]] else []) + ActiveRequirements(requirements[1..])
  }

  /** The validation an approval passes through, in its order; accepted exactly when nothing is left against the unit. */
  method CleanApproval(u: Record, d: Dossier) returns (refusal: Option<Refusal>)
    ensures refusal == ApprovalIssue(u, Documented(d))
    ensures refusal.None? <==>
              && (forall r | 0 <= r < |u.reworks| :: u.reworks[r].status in {Closed, Cancelled})
              && (forall g | 0 <= g < |u.gates| && u.gates[g].blocking :: u.gates[g].status in {Passed, Waived})
              && Documented(d)
  {
    if HasOpenRework(u.reworks) { return Some(OpenReworks); }
    assert forall r | 0 <= r < |u.reworks| :: !Active(u.reworks[r]);
    if Blocked(u.gates) { return Some(BlockingGates); }
    assert forall g | 0 <= g < |u.gates| :: !Blocks(u.gates[g]);
    var active := ActiveRequirements(d.requirements);
    var asBuilt := AsBuiltIssues(active, d.components);
    ActiveAreSatisfied(d.requirements, d.components);
    if asBuilt != [] { return Some(Undocumented); }
    var measured := MeasurementIssues(d.parameters, d.measurements);
    if measured != [] { return Some(Undocumented); }
    return None;
  }

  lemma ActiveAreSatisfied(requirements: seq<Requirement>, components: seq<Component>)
    ensures var active := ActiveRequirements(requirements);
            (forall i | 0 <= i < |active| :: Satisfied(active[i], components))
            <==> forall i | 0 <= i < |requirements| && requirements[i].active :: Satisfied(requirements[i], components)
  {
    var active := ActiveRequirements(requirements);
    forall i | 0 <= i < |active|
      ensures exists j :: 0 <= j < |requirements| && requirements[j].active && requirements[j] == active[i]
    {
      assert active[i] in active;
    }
    forall j | 0 <= j < |requirements| && requirements[j].active
      ensures exists i :: 0 <= i < |active| && active[i] == requirements[j]
    {
      assert requirements[j] in active;
    }
  }

  // ----- Installing components -----

  datatype Installation = Installation(requirement: nat, serial: string, lot: string, quantity: int)

  function Install(requirements: seq<Requirement>, components: seq<Component>, i: Installation): seq<Component> {
    if i.requirement >= |requirements| || !requirements[i.requirement].active then components
    else
      var r := requirements[i.requirement];
      if i.quantity <= 0 || !Traceable(r, i.serial, i.lot) then components
      else components + [Component(Some(r.step), r.part, i.serial, i.lot, i.quantity)]
  }

  function InstallAll(requirements: seq<Requirement>, components: seq<Component>, installs: seq<Installation>): seq<Component>
    decreases |installs|
  {
    if installs == [] then components
    else InstallAll(requirements, Install(requirements, components, installs[0]), installs[1..])
  }

  /** The numbers a requirement of this kind asks for are given. */
  predicate Identifies(kind: Traceability, serial: string, lot: string) {
    && (kind in {Serial, SerialAndLot} ==> serial != "")
    && (kind in {Lot, SerialAndLot} ==> lot != "")
    && (kind == SerialOrLot ==> serial != "" || lot != "")
  }

  /** The installation names an active requirement, a positive quantity and the numbers asked for. */
  predicate Installable(requirements: seq<Requirement>, i: Installation) {
    && i.requirement < |requirements| && requirements[i.requirement].active && i.quantity > 0
    && Identifies(requirements[i.requirement].traceability, i.serial, i.lot)
  }

  /** An installation raises the quantity of its step and part by its own and no other; any other is refused. */
  lemma {:induction false} InstallationCounts(requirements: seq<Requirement>, components: seq<Component>, i: Installation,
                                              other: Requirement)
    ensures !Installable(requirements, i) ==> Install(requirements, components, i) == components
    ensures Installable(requirements, i) ==>
              var r, next := requirements[i.requirement], Install(requirements, components, i);
              && next == components + [Component(Some(r.step), r.part, i.serial, i.lot, i.quantity)]
              && Installed(other, next) == Installed(other, components)
                                           + if other.step == r.step && other.part == r.part then i.quantity else 0
  {
    if Installable(requirements, i) {
      assert Install(requirements, components, i)[..|components|] == components;
    }
  }

  /** A step asks for each part once. */
  predicate PartsUnique(requirements: seq<Requirement>) {
    forall i, j | 0 <= i < j < |requirements| ::
      requirements[i].step != requirements[j].step || requirements[i].part != requirements[j].part
  }

  lemma InstallKeepsSatisfied(requirements: seq<Requirement>, components: seq<Component>, i: Installation, k: nat)
    requires PartsUnique(requirements) && k < |requirements|
    requires Satisfied(requirements[k], components)
    ensures Satisfied(requirements[k], Install(requirements, components, i))
  {
    var next := Install(requirements, components, i);
    if next != components {
      assert next[..|components|] == components;
      assert Matches(requirements[k], next[|components|]) ==> k == i.requirement;
      forall j | 0 <= j < |next| && Matches(requirements[k], next[j])
        ensures Traceable(requirements[k], next[j].serial, next[j].lot)
      {
        assert j < |components| ==> next[j] == components[j];
      }
    }
  }

  /** A requirement once satisfied stays satisfied whatever is installed afterwards. */
  lemma {:induction false} SatisfiedStaysSatisfied(requirements: seq<Requirement>, components: seq<Component>,
                                                   installs: seq<Installation>, k: nat)
    requires PartsUnique(requirements) && k < |requirements|
    requires Satisfied(requirements[k], components)
    ensures Satisfied(requirements[k], InstallAll(requirements, components, installs))
    decreases |installs|
  {
    if installs != [] {
      InstallKeepsSatisfied(requirements, components, installs[0], k);
      SatisfiedStaysSatisfied(requirements, Install(requirements, components, installs[0]), installs[1..], k);
    }
  }

  /** Installing never turns an acceptable approval down. */
  lemma InstallingKeepsApproval(u: Record, d: Dossier, installs: seq<Installation>)
    requires PartsUnique(d.requirements) && ApprovalIssue(u, Documented(d)).None?
    ensures ApprovalIssue(u, Documented(d.(components := InstallAll(d.requirements, d.components, installs)))).None?
  {
    forall k | 0 <= k < |d.requirements| && d.requirements[k].active
      ensures Satisfied(d.requirements[k], InstallAll(d.requirements, d.components, installs))
    {
      SatisfiedStaysSatisfied(d.requirements, d.components, installs, k);
    }
  }
}
