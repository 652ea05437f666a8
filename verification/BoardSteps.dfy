/** Mounting steps on the columns of a kanban board: the flight checklist
    (scripts/kanban/configure-flight-checklist.ts) and the designer
    (scripts/kanban/configure-designer.ts). */
module BoardSteps {
  import opened Options

  /** The specialist ids the two scripts name; any other id is `OtherSpecialist`. */
  datatype Specialist =
    | TodoOrchestrator | ContractSetter | Designer
    | DevExecutor | FlightDevExecutor
    | QaFrontend | ReviewGuard | FlightReviewGuard | HighRiskReviewer
    | DoneReporter | TopBiPorter | MainPusher
    | OtherSpecialist(id: string)

  datatype Role = Crafter | Gate | Developer | OtherRole(name: string)

  datatype Stage = Todo | Dev | Review | Done | OtherStage(name: string)

  /** The value of a field the scripts do not name, or only copy. */
  datatype Value = Text(text: string) | Json(json: string)

  /** An optional field is `None` when the source has `undefined`. */
  datatype Step = Step(id: Option<string>, role: Option<Role>, specialist: Option<Specialist>, name: Option<string>, fields: map<string, Value>)

  datatype Automation = Automation(steps: Option<seq<Step>>, role: Option<Role>, specialist: Option<Specialist>, name: Option<string>, fields: map<string, Value>)

  datatype Column = Column(stage: Option<Stage>, automation: Option<Automation>, fields: map<string, Value>)

  datatype Error =
    | NoColumn(stage: Stage)
    | NoStep(inStage: Option<Stage>, specialist: Specialist)
    | UnregisteredDoneSteps(ids: seq<Specialist>)
    | RepeatedDoneSteps(ids: seq<Specialist>)

  datatype Template = Template(id: string, role: Role, specialist: Specialist, en: string, zh: string)

  function TemplateOf(specialist: Specialist): Option<Template> {
    match specialist
    case ContractSetter => Some(Template("contract-setter", Crafter, ContractSetter, "Contract Setter", "出题人"))
    case FlightDevExecutor => Some(Template("flight-dev-executor", Crafter, FlightDevExecutor, "Flight Dev Crafter", "开发执行员（起飞检查单）"))
    case FlightReviewGuard => Some(Template("flight-review-guard", Gate, FlightReviewGuard, "Flight Review Guard", "评审守卫（起飞检查单）"))
    case HighRiskReviewer => Some(Template("high-risk-reviewer", Gate, HighRiskReviewer, "High-Risk Reviewer", "高风险复核员"))
    case TopBiPorter => Some(Template("topbi-porter", Developer, TopBiPorter, "TopBI Porter", "TopBI 移植员"))
    case Designer => Some(Template("designer", Crafter, Designer, "Designer", "设计师"))
    case _ => None
  }

  /** Runtime fields a new step takes over from the step it is built from. */
  const CARRIED_FIELDS: set<string> := {"providerId", "model", "reasoningEffort", "specialistLocale", "transport"}

  predicate IsChineseLocale(step: Step) {
    && "specialistLocale" in step.fields
    && step.fields["specialistLocale"].Text?
    && var locale := step.fields["specialistLocale"].text;
       |locale| >= 2 && locale[0] in "zZ" && locale[1] in "hH"
  }

  /** The step of a specialist that has a template, built from `source`. */
  function BuildStep(specialist: Specialist, source: Step): (step: Step)
    requires TemplateOf(specialist).Some?
    ensures step.specialist == Some(specialist)
  {
    var template := TemplateOf(specialist).value;
    Step(Some(template.id), Some(template.role), Some(template.specialist),
         Some(if IsChineseLocale(source) then template.zh else template.en),
         map key | key in source.fields && key in CARRIED_FIELDS :: source.fields[key])
  }

  const NO_STEP := Step(None, None, None, None, map[])

  const MAIN_PUSHER_STEP := Step(Some("main-pusher"), Some(Developer), Some(MainPusher), Some("Main Pusher"), map[])

  function StepsOf(column: Column): seq<Step> {
    if column.automation.Some? && column.automation.value.steps.Some? then column.automation.value.steps.value else []
  }

  function FindStep(steps: seq<Step>, specialist: Specialist): (found: Option<Step>)
    ensures found.Some? ==> found.value.specialist == Some(specialist)
  {
    if steps == [] then None
    else if steps[0].specialist == Some(specialist) then Some(steps[0])
    else FindStep(steps[1..], specialist)
  }

  predicate HasStep(steps: seq<Step>, specialist: Specialist) {
    exists k :: 0 <= k < |steps| && steps[k].specialist == Some(specialist)
  }

  lemma {:induction false} FindIsFirst(steps: seq<Step>, specialist: Specialist)
    ensures var found := FindStep(steps, specialist);
            && (found.Some? <==> HasStep(steps, specialist))
            && (found.Some? ==> exists k :: 0 <= k < |steps| && steps[k] == found.value
                                            && forall j :: 0 <= j < k ==> steps[j].specialist != Some(specialist))
  {
    if steps != [] {
      if steps[0].specialist == Some(specialist) {
        assert steps[0] == FindStep(steps, specialist).value;
      } else {
        var rest := steps[1..];
        FindIsFirst(rest, specialist);
        if HasStep(rest, specialist) {
          var k :| 0 <= k < |rest| && rest[k] == FindStep(rest, specialist).value
                   && forall j :: 0 <= j < k ==> rest[j].specialist != Some(specialist);
          assert steps[k + 1] == rest[k];
          assert forall j :: 0 < j < k + 1 ==> steps[j] == rest[j - 1];
        } else {
          assert forall j :: 0 < j < |steps| ==> steps[j] == rest[j - 1];
        }
      }
    }
  }

  // ----- the primary fields -----

  /** The column with these steps; its primary fields follow the first of them. */
  function WithSteps(column: Column, steps: seq<Step>): Column {
    var previous := if column.automation.Some? then column.automation.value else Automation(None, None, None, None, map[]);
    if steps == [] then
      column.(automation := Some(Automation(Some([]), None, None, None, previous.fields)))
    else
      column.(automation := Some(Automation(Some(steps), steps[0].role, steps[0].specialist, steps[0].name, previous.fields)))
  }

  /** The column's primary fields are those of its first step, and absent when it has none. */
  predicate Mirrors(column: Column) {
    && column.automation.Some?
    && var a, steps := column.automation.value, StepsOf(column);
       if steps == [] then a.role == None && a.specialist == None && a.name == None
       else a.role == steps[0].role && a.specialist == steps[0].specialist && a.name == steps[0].name
  }

  // ----- the flight checklist -----

  function RequireStep(column: Column, specialist: Specialist): (r: Result<Step, Error>)
    ensures r.Ok? ==> r.value.specialist == Some(specialist)
  {
    var found := FindStep(StepsOf(column), specialist);
    if found.Some? then Ok(found.value) else Err(NoStep(column.stage, specialist))
  }

  predicate Registered(id: Specialist) {
    id == TopBiPorter || id == MainPusher || id == DoneReporter
  }

  function Unregistered(ids: seq<Specialist>): seq<Specialist> {
    if ids == [] then [] else (if Registered(ids[0]) then [] else [ids[0]]) + Unregistered(ids[1..])
  }

  /** The ids that occur earlier in the list as well. */
  function Repeated(ids: seq<Specialist>): seq<Specialist> {
    if ids == [] then []
    else
      var last, front := ids[|ids| - 1], ids[..|ids| - 1];
      Repeated(front) + if last in front then [last] else []
  }

  function CheckDoneSteps(ids: seq<Specialist>): Option<Error> {
    if Unregistered(ids) != [] then Some(UnregisteredDoneSteps(Unregistered(ids)))
    else if Repeated(ids) != [] then Some(RepeatedDoneSteps(Repeated(ids)))
    else None
  }

  function DoneStep(column: Column, source: Step, id: Specialist): (r: Result<Step, Error>)
    requires Registered(id)
    ensures r.Ok? ==> r.value.specialist == Some(id)
  {
    var kept := FindStep(StepsOf(column), id);
    if kept.Some? then Ok(kept.value)
    else if id == DoneReporter then RequireStep(column, id)
    else if id == MainPusher then Ok(MAIN_PUSHER_STEP)
    else Ok(BuildStep(id, source))
  }

  predicate AllRegistered(ids: seq<Specialist>) {
    forall k :: 0 <= k < |ids| ==> Registered(ids[k])
  }

  function DoneSteps(column: Column, source: Step, ids: seq<Specialist>): Result<seq<Step>, Error>
    requires AllRegistered(ids)
  {
    if ids == [] then Ok([])
    else
      var first := DoneStep(column, source, ids[0]);
      if first.Err? then Err(first.error)
      else
        var rest := DoneSteps(column, source, ids[1..]);
        if rest.Err? then rest else Ok([first.value] + rest.value)
  }

  lemma {:induction false} UnregisteredSpec(ids: seq<Specialist>)
    ensures Unregistered(ids) == [] <==> AllRegistered(ids)
  {
    if ids != [] {
      UnregisteredSpec(ids[1..]);
      assert forall k :: 0 < k < |ids| ==> ids[k] == ids[1..][k - 1];
      assert AllRegistered(ids) ==> AllRegistered(ids[1..]);
    }
  }

  predicate NoRepeats(ids: seq<Specialist>) {
    forall i, j :: 0 <= i < j < |ids| ==> ids[i] != ids[j]
  }

  lemma {:induction false} RepeatedSpec(ids: seq<Specialist>)
    ensures Repeated(ids) == [] <==> NoRepeats(ids)
  {
    if ids != [] {
      var front, last := ids[..|ids| - 1], ids[|ids| - 1];
      RepeatedSpec(front);
      if last in front {
        var i :| 0 <= i < |front| && front[i] == last;
        assert ids[i] == ids[|ids| - 1];
      }
      assert NoRepeats(ids) ==> NoRepeats(front);
    }
  }

  /** The check passes exactly for lists of distinct registered ids. */
  lemma CheckDoneStepsSpec(ids: seq<Specialist>)
    ensures CheckDoneSteps(ids).None? <==> AllRegistered(ids) && NoRepeats(ids)
  {
    UnregisteredSpec(ids);
    RepeatedSpec(ids);
  }

  function WithDoneSteps(column: Column, ids: seq<Specialist>): Result<Column, Error> {
    CheckDoneStepsSpec(ids);
    var error := CheckDoneSteps(ids);
    if error.Some? then Err(error.value)
    else
      var existing := StepsOf(column);
      var reporter := FindStep(existing, DoneReporter);
      var source := if reporter.Some? then reporter.value else if existing != [] then existing[0] else NO_STEP;
      var steps := DoneSteps(column, source, ids);
      if steps.Err? then Err(steps.error)
      else if steps.value == existing then Ok(column)
      else Ok(WithSteps(column, steps.value))
  }

  function ReplaceDevExecutor(step: Step): Step {
    if step.specialist == Some(DevExecutor) then BuildStep(FlightDevExecutor, step) else step
  }

  function ReplaceDevExecutors(steps: seq<Step>): seq<Step> {
    if steps == [] then [] else [ReplaceDevExecutor(steps[0])] + ReplaceDevExecutors(steps[1..])
  }

  function MountTodo(column: Column): Result<Column, Error> {
    if HasStep(StepsOf(column), ContractSetter) then Ok(column)
    else
      var orchestrator := RequireStep(column, TodoOrchestrator);
      if orchestrator.Err? then Err(orchestrator.error)
      else Ok(WithSteps(column, [orchestrator.value, BuildStep(ContractSetter, orchestrator.value)]))
  }

  function MountDev(column: Column): Result<Column, Error> {
    if HasStep(StepsOf(column), FlightDevExecutor) then Ok(column)
    else if RequireStep(column, DevExecutor).Err? then Err(RequireStep(column, DevExecutor).error)
    else Ok(WithSteps(column, ReplaceDevExecutors(StepsOf(column))))
  }

  function MountReview(column: Column): Result<Column, Error> {
    var steps := StepsOf(column);
    if HasStep(steps, FlightReviewGuard) && HasStep(steps, HighRiskReviewer) then Ok(column)
    else
      var qa := RequireStep(column, QaFrontend);
      if qa.Err? then Err(qa.error)
      else
        var guard := RequireStep(column, ReviewGuard);
        if guard.Err? then Err(guard.error)
        else Ok(WithSteps(column, [qa.value, BuildStep(FlightReviewGuard, guard.value), BuildStep(HighRiskReviewer, guard.value)]))
  }

  function MountColumn(column: Column, doneSteps: Option<seq<Specialist>>): Result<Column, Error> {
    match column.stage
    case Some(Todo) => MountTodo(column)
    case Some(Dev) => MountDev(column)
    case Some(Review) => MountReview(column)
    case Some(Done) => if doneSteps.None? then Ok(column) else WithDoneSteps(column, doneSteps.value)
    case _ => Ok(column)
  }

  function MountColumns(columns: seq<Column>, doneSteps: Option<seq<Specialist>>): Result<seq<Column>, Error> {
    if columns == [] then Ok([])
    else
      var first := MountColumn(columns[0], doneSteps);
      if first.Err? then Err(first.error)
      else
        var rest := MountColumns(columns[1..], doneSteps);
        if rest.Err? then rest else Ok([first.value] + rest.value)
  }

  predicate HasStage(columns: seq<Column>, stage: Stage) {
    exists k :: 0 <= k < |columns| && columns[k].stage == Some(stage)
  }

  function Mount(columns: seq<Column>, doneSteps: Option<seq<Specialist>>): Result<seq<Column>, Error> {
    if !HasStage(columns, Todo) then Err(NoColumn(Todo))
    else if !HasStage(columns, Dev) then Err(NoColumn(Dev))
    else if !HasStage(columns, Review) then Err(NoColumn(Review))
    else MountColumns(columns, doneSteps)
  }

  // ----- the designer -----

  /** `findIndex`, from `from` on. */
  function IndexOfStep(steps: seq<Step>, specialist: Specialist, from: nat): (i: int)
    ensures i == -1 || from <= i < |steps|
    decreases |steps| - from
  {
    if from >= |steps| then -1
    else if steps[from].specialist == Some(specialist) then from
    else IndexOfStep(steps, specialist, from + 1)
  }

  function WithDesignerInTodo(column: Column): Column {
    if column.automation.None? || column.automation.value.steps.None? then column
    else
      var steps := StepsOf(column);
      var orchestrator := IndexOfStep(steps, TodoOrchestrator, 0);
      if orchestrator < 0 || HasStep(steps, Designer) then column
      else
        var setter := IndexOfStep(steps, ContractSetter, orchestrator + 1);
        var at := if setter >= 0 then setter else orchestrator + 1;
        var next := steps[..at] + [BuildStep(Designer, steps[orchestrator])] + steps[at..];
        column.(automation := Some(column.automation.value.(steps := Some(next))))
  }

  function DesignColumn(column: Column): Column {
    if column.stage == Some(Todo) then WithDesignerInTodo(column) else column
  }

  function Design(columns: seq<Column>): seq<Column> {
    if columns == [] then [] else [DesignColumn(columns[0])] + Design(columns[1..])
  }

  // ----- the flight checklist is idempotent -----

  lemma StepsOfWithSteps(column: Column, steps: seq<Step>)
    ensures StepsOf(WithSteps(column, steps)) == steps && Mirrors(WithSteps(column, steps))
    ensures WithSteps(column, steps).stage == column.stage && WithSteps(column, steps).fields == column.fields
    ensures AutomationFields(WithSteps(column, steps)) == AutomationFields(column)
  {
  }

  lemma {:induction false} DoneStepsSpec(column: Column, source: Step, ids: seq<Specialist>)
    requires AllRegistered(ids) && DoneSteps(column, source, ids).Ok?
    ensures var steps := DoneSteps(column, source, ids).value;
            && |steps| == |ids|
            && forall k :: 0 <= k < |ids| ==> DoneStep(column, source, ids[k]) == Ok(steps[k])
    decreases |ids|
  {
    if ids != [] {
      DoneStepsSpec(column, source, ids[1..]);
      assert forall k :: 0 < k < |ids| ==> ids[k] == ids[1..][k - 1];
    }
  }

  lemma {:induction false} DoneStepsAre(column: Column, source: Step, ids: seq<Specialist>, steps: seq<Step>)
    requires AllRegistered(ids) && |steps| == |ids|
    requires forall k :: 0 <= k < |ids| ==> DoneStep(column, source, ids[k]) == Ok(steps[k])
    ensures DoneSteps(column, source, ids) == Ok(steps)
    decreases |ids|
  {
    if ids != [] {
      DoneStepsAre(column, source, ids[1..], steps[1..]);
      assert steps == [steps[0]] + steps[1..];
    }
  }

  lemma FindDistinct(steps: seq<Step>, ids: seq<Specialist>, k: nat)
    requires |steps| == |ids| && NoRepeats(ids) && k < |ids|
    requires forall j :: 0 <= j < |ids| ==> steps[j].specialist == Some(ids[j])
    ensures FindStep(steps, ids[k]) == Some(steps[k])
  {
    FindIsFirst(steps, ids[k]);
    assert HasStep(steps, ids[k]);
    var i :| 0 <= i < |steps| && steps[i] == FindStep(steps, ids[k]).value;
    assert ids[i] == ids[k];
  }

  predicate IdsAre(steps: seq<Step>, ids: seq<Specialist>) {
    |steps| == |ids| && forall k :: 0 <= k < |ids| ==> steps[k].specialist == Some(ids[k])
  }

  /** The done column gets exactly the steps asked for, in that order. Steps that were there stay as
      they were. */
  lemma DoneColumnIsExact(column: Column, ids: seq<Specialist>)
    requires WithDoneSteps(column, ids).Ok?
    ensures AllRegistered(ids) && NoRepeats(ids)
    ensures IdsAre(StepsOf(WithDoneSteps(column, ids).value), ids)
    ensures forall k :: 0 <= k < |ids| && HasStep(StepsOf(column), ids[k]) ==>
              Some(StepsOf(WithDoneSteps(column, ids).value)[k]) == FindStep(StepsOf(column), ids[k])
  {
    CheckDoneStepsSpec(ids);
    var existing := StepsOf(column);
    var reporter := FindStep(existing, DoneReporter);
    var source := if reporter.Some? then reporter.value else if existing != [] then existing[0] else NO_STEP;
    DoneStepsSpec(column, source, ids);
    var steps := DoneSteps(column, source, ids).value;
    StepsOfWithSteps(column, steps);
    assert StepsOf(WithDoneSteps(column, ids).value) == steps;
    forall k | 0 <= k < |ids| && HasStep(existing, ids[k]) ensures Some(steps[k]) == FindStep(existing, ids[k]) {
      FindIsFirst(existing, ids[k]);
    }
  }

  lemma ExactDoneStays(column: Column, ids: seq<Specialist>)
    requires AllRegistered(ids) && NoRepeats(ids) && IdsAre(StepsOf(column), ids)
    ensures WithDoneSteps(column, ids) == Ok(column)
  {
    CheckDoneStepsSpec(ids);
    var existing := StepsOf(column);
    var reporter := FindStep(existing, DoneReporter);
    var source := if reporter.Some? then reporter.value else if existing != [] then existing[0] else NO_STEP;
    forall k | 0 <= k < |ids| ensures DoneStep(column, source, ids[k]) == Ok(existing[k]) {
      FindDistinct(existing, ids, k);
    }
    DoneStepsAre(column, source, ids, existing);
  }

  lemma {:induction false} ReplacedAt(steps: seq<Step>)
    ensures |ReplaceDevExecutors(steps)| == |steps|
    ensures forall k :: 0 <= k < |steps| ==>
              ReplaceDevExecutors(steps)[k] == ReplaceDevExecutor(steps[k])
  {
    if steps != [] {
      ReplacedAt(steps[1..]);
    }
  }

  /** What a column of each stage holds after a mount that succeeds. */
  predicate Mounted(column: Column, doneSteps: Option<seq<Specialist>>) {
    var steps := StepsOf(column);
    match column.stage
    case Some(Todo) => HasStep(steps, ContractSetter)
    case Some(Dev) => HasStep(steps, FlightDevExecutor)
    case Some(Review) => HasStep(steps, FlightReviewGuard) && HasStep(steps, HighRiskReviewer)
    case Some(Done) =>
      doneSteps.Some? ==> (AllRegistered(doneSteps.value) && NoRepeats(doneSteps.value) && IdsAre(steps, doneSteps.value))
    case _ => true
  }

  lemma MountedStays(column: Column, doneSteps: Option<seq<Specialist>>)
    requires Mounted(column, doneSteps)
    ensures MountColumn(column, doneSteps) == Ok(column)
  {
    if column.stage == Some(Done) && doneSteps.Some? {
      ExactDoneStays(column, doneSteps.value);
    }
  }

  /** A column that is mounted keeps its stage and its other fields; one that changes mirrors its
      first step. */
  predicate Rewrote(before: Column, after: Column) {
    && after.stage == before.stage && after.fields == before.fields
    && AutomationFields(after) == AutomationFields(before)
    && (after != before ==> Mirrors(after))
  }

  function AutomationFields(column: Column): map<string, Value> {
    if column.automation.Some? then column.automation.value.fields else map[]
  }

  lemma MountTodoSpec(column: Column)
    requires MountTodo(column).Ok?
    ensures Rewrote(column, MountTodo(column).value) && HasStep(StepsOf(MountTodo(column).value), ContractSetter)
  {
    if !HasStep(StepsOf(column), ContractSetter) {
      hide BuildStep;
      var orchestrator := RequireStep(column, TodoOrchestrator).value;
      var steps := [orchestrator, BuildStep(ContractSetter, orchestrator)];
      StepsOfWithSteps(column, steps);
      assert steps[1].specialist == Some(ContractSetter);
    }
  }

  lemma MountDevSpec(column: Column)
    requires MountDev(column).Ok?
    ensures Rewrote(column, MountDev(column).value) && HasStep(StepsOf(MountDev(column).value), FlightDevExecutor)
  {
    var steps := StepsOf(column);
    if !HasStep(steps, FlightDevExecutor) {
      hide BuildStep;
      FindIsFirst(steps, DevExecutor);
      ReplacedAt(steps);
      var k :| 0 <= k < |steps| && steps[k].specialist == Some(DevExecutor);
      assert ReplaceDevExecutors(steps)[k].specialist == Some(FlightDevExecutor);
      StepsOfWithSteps(column, ReplaceDevExecutors(steps));
    }
  }

  lemma MountReviewSpec(column: Column)
    requires MountReview(column).Ok?
    ensures Rewrote(column, MountReview(column).value)
    ensures HasStep(StepsOf(MountReview(column).value), FlightReviewGuard)
    ensures HasStep(StepsOf(MountReview(column).value), HighRiskReviewer)
  {
    var steps := StepsOf(column);
    if !(HasStep(steps, FlightReviewGuard) && HasStep(steps, HighRiskReviewer)) {
      hide BuildStep;
      var qa, guard := RequireStep(column, QaFrontend).value, RequireStep(column, ReviewGuard).value;
      var next := [qa, BuildStep(FlightReviewGuard, guard), BuildStep(HighRiskReviewer, guard)];
      StepsOfWithSteps(column, next);
      assert next[1].specialist == Some(FlightReviewGuard) && next[2].specialist == Some(HighRiskReviewer);
    }
  }

  lemma MountColumnSpec(column: Column, doneSteps: Option<seq<Specialist>>)
    requires MountColumn(column, doneSteps).Ok?
    ensures var after := MountColumn(column, doneSteps).value;
            Rewrote(column, after) && Mounted(after, doneSteps)
  {
    hide MountTodo, MountDev, MountReview, WithSteps, DoneSteps, HasStep;
    match column.stage
    case Some(Todo) => MountTodoSpec(column);
    case Some(Dev) => MountDevSpec(column);
    case Some(Review) => MountReviewSpec(column);
    case Some(Done) =>
      if doneSteps.Some? {
        DoneColumnIsExact(column, doneSteps.value);
        DoneRewrote(column, doneSteps.value);
      }
    case _ =>
  }

  lemma DoneRewrote(column: Column, ids: seq<Specialist>)
    requires WithDoneSteps(column, ids).Ok?
    ensures Rewrote(column, WithDoneSteps(column, ids).value)
  {
    CheckDoneStepsSpec(ids);
    var existing := StepsOf(column);
    var reporter := FindStep(existing, DoneReporter);
    var source := if reporter.Some? then reporter.value else if existing != [] then existing[0] else NO_STEP;
    StepsOfWithSteps(column, DoneSteps(column, source, ids).value);
  }

  lemma {:induction false} MountColumnsSpec(columns: seq<Column>, doneSteps: Option<seq<Specialist>>)
    requires MountColumns(columns, doneSteps).Ok?
    ensures var next := MountColumns(columns, doneSteps).value;
            && |next| == |columns|
            && forall k :: 0 <= k < |columns| ==> Rewrote(columns[k], next[k]) && Mounted(next[k], doneSteps)
  {
    if columns != [] {
      hide Mounted, Rewrote, MountColumn;
      MountColumnsSpec(columns[1..], doneSteps);
      MountColumnSpec(columns[0], doneSteps);
    }
  }

  lemma {:induction false} AllMountedStay(columns: seq<Column>, doneSteps: Option<seq<Specialist>>)
    requires forall k :: 0 <= k < |columns| ==> Mounted(columns[k], doneSteps)
    ensures MountColumns(columns, doneSteps) == Ok(columns)
  {
    if columns != [] {
      hide Mounted, MountColumn;
      MountedStays(columns[0], doneSteps);
      AllMountedStay(columns[1..], doneSteps);
      assert columns == [columns[0]] + columns[1..];
    }
  }

  lemma StagesKept(a: seq<Column>, b: seq<Column>, stage: Stage)
    requires |a| == |b| && forall k :: 0 <= k < |a| ==> a[k].stage == b[k].stage
    ensures HasStage(a, stage) <==> HasStage(b, stage)
  {
  }

  lemma SameStages(a: seq<Column>, b: seq<Column>)
    requires |a| == |b| && forall k :: 0 <= k < |a| ==> a[k].stage == b[k].stage
    ensures HasStage(a, Todo) == HasStage(b, Todo) && HasStage(a, Dev) == HasStage(b, Dev) && HasStage(a, Review) == HasStage(b, Review)
  {
    StagesKept(a, b, Todo);
    StagesKept(a, b, Dev);
    StagesKept(a, b, Review);
  }

  /** Whenever the mount succeeds, it keeps the columns' number, order, stages and other fields, every
      column it rewrites mirrors its first step, and mounting again changes nothing. */
  lemma MountIsIdempotent(columns: seq<Column>, doneSteps: Option<seq<Specialist>>)
    requires Mount(columns, doneSteps).Ok?
    ensures var next := Mount(columns, doneSteps).value;
            && |next| == |columns|
            && (forall k :: 0 <= k < |columns| ==> Rewrote(columns[k], next[k]))
            && Mount(next, doneSteps) == Ok(next)
  {
    hide Mounted, MountColumn;
    var next := Mount(columns, doneSteps).value;
    MountColumnsSpec(columns, doneSteps);
    SameStages(columns, next);
    AllMountedStay(next, doneSteps);
  }

  /** Every column is mounted on its own, after its stage; a column of another stage stays, and so
      does the done column when no done steps are asked for. */
  lemma {:induction false} MountAt(columns: seq<Column>, doneSteps: Option<seq<Specialist>>, k: nat)
    requires k < |columns| && MountColumns(columns, doneSteps).Ok?
    ensures var next := MountColumns(columns, doneSteps).value;
            && |next| == |columns|
            && (columns[k].stage == Some(Todo) ==> MountTodo(columns[k]) == Ok(next[k]))
            && (columns[k].stage == Some(Dev) ==> MountDev(columns[k]) == Ok(next[k]))
            && (columns[k].stage == Some(Review) ==> MountReview(columns[k]) == Ok(next[k]))
            && (columns[k].stage == Some(Done) && doneSteps.Some? ==> WithDoneSteps(columns[k], doneSteps.value) == Ok(next[k]))
            && (columns[k].stage !in [Some(Todo), Some(Dev), Some(Review), Some(Done)] ==> next[k] == columns[k])
            && (columns[k].stage == Some(Done) && doneSteps.None? ==> next[k] == columns[k])
    decreases |columns|
  {
    hide MountTodo, MountDev, MountReview, WithDoneSteps;
    if k > 0 {
      MountAt(columns[1..], doneSteps, k - 1);
    } else if |columns| > 1 {
      MountAt(columns[1..], doneSteps, 0);
    }
  }

  // ----- when the mount succeeds -----

  /** The steps a column must have beforehand. */
  predicate Ready(column: Column, doneSteps: Option<seq<Specialist>>) {
    var steps := StepsOf(column);
    match column.stage
    case Some(Todo) => HasStep(steps, ContractSetter) || HasStep(steps, TodoOrchestrator)
    case Some(Dev) => HasStep(steps, FlightDevExecutor) || HasStep(steps, DevExecutor)
    case Some(Review) =>
      || (HasStep(steps, FlightReviewGuard) && HasStep(steps, HighRiskReviewer))
      || (HasStep(steps, QaFrontend) && HasStep(steps, ReviewGuard))
    case Some(Done) =>
      doneSteps.Some? ==>
        (&& AllRegistered(doneSteps.value) && NoRepeats(doneSteps.value)
         && (DoneReporter in doneSteps.value ==> HasStep(steps, DoneReporter)))
    case _ => true
  }

  lemma {:induction false} DoneStepsOkIff(column: Column, source: Step, ids: seq<Specialist>)
    requires AllRegistered(ids)
    ensures DoneSteps(column, source, ids).Ok? <==> (DoneReporter in ids ==> HasStep(StepsOf(column), DoneReporter))
    decreases |ids|
  {
    if ids != [] {
      FindIsFirst(StepsOf(column), ids[0]);
      DoneStepsOkIff(column, source, ids[1..]);
    }
  }

  lemma MountColumnOkIff(column: Column, doneSteps: Option<seq<Specialist>>)
    ensures MountColumn(column, doneSteps).Ok? <==> Ready(column, doneSteps)
  {
    hide HasStep, FindStep, BuildStep, DoneSteps, NoRepeats, AllRegistered, ReplaceDevExecutors;
    var steps := StepsOf(column);
    FindIsFirst(steps, TodoOrchestrator);
    FindIsFirst(steps, DevExecutor);
    FindIsFirst(steps, QaFrontend);
    FindIsFirst(steps, ReviewGuard);
    if column.stage == Some(Done) && doneSteps.Some? {
      CheckDoneStepsSpec(doneSteps.value);
      var reporter := FindStep(steps, DoneReporter);
      if CheckDoneSteps(doneSteps.value).None? {
        DoneStepsOkIff(column, if reporter.Some? then reporter.value else if steps != [] then steps[0] else NO_STEP, doneSteps.value);
      }
    }
  }

  lemma {:induction false} MountColumnsOkIff(columns: seq<Column>, doneSteps: Option<seq<Specialist>>)
    ensures MountColumns(columns, doneSteps).Ok? <==> forall k :: 0 <= k < |columns| ==> Ready(columns[k], doneSteps)
  {
    if columns != [] {
      hide Ready, MountColumn;
      MountColumnOkIff(columns[0], doneSteps);
      MountColumnsOkIff(columns[1..], doneSteps);
      assert forall k :: 0 < k < |columns| ==> columns[k] == columns[1..][k - 1];
      assert forall k :: 0 <= k < |columns| - 1 ==> columns[1..][k] == columns[k + 1];
    }
  }

  /** The mount succeeds exactly when the three stages exist and every column has the steps that are
      to be replaced, or is mounted already. */
  lemma MountSucceedsIff(columns: seq<Column>, doneSteps: Option<seq<Specialist>>)
    ensures Mount(columns, doneSteps).Ok? <==>
            && HasStage(columns, Todo) && HasStage(columns, Dev) && HasStage(columns, Review)
            && forall k :: 0 <= k < |columns| ==> Ready(columns[k], doneSteps)
  {
    MountColumnsOkIff(columns, doneSteps);
  }

  // ----- why the mount fails -----

  /** What an error says is so. */
  ghost predicate Tells(error: Error, columns: seq<Column>, doneSteps: Option<seq<Specialist>>) {
    match error
    case NoColumn(stage) => stage in [Todo, Dev, Review] && !HasStage(columns, stage)
    case NoStep(inStage, specialist) => exists k :: 0 <= k < |columns| && columns[k].stage == inStage && Lacks(columns[k], specialist, doneSteps)
    case UnregisteredDoneSteps(ids) =>
      && doneSteps.Some? && HasStage(columns, Done) && ids != []
      && forall id :: id in ids <==> id in doneSteps.value && !Registered(id)
    case RepeatedDoneSteps(ids) =>
      && doneSteps.Some? && HasStage(columns, Done) && ids != [] && AllRegistered(doneSteps.value)
      && forall id :: id in ids <==> Twice(doneSteps.value, id)
  }

  /** The column has not the step, and its stage cannot do without. */
  predicate Lacks(column: Column, specialist: Specialist, doneSteps: Option<seq<Specialist>>) {
    && !HasStep(StepsOf(column), specialist)
    && match column.stage
       case Some(Todo) => specialist == TodoOrchestrator
       case Some(Dev) => specialist == DevExecutor
       case Some(Review) => specialist == QaFrontend || (specialist == ReviewGuard && HasStep(StepsOf(column), QaFrontend))
       case Some(Done) => specialist == DoneReporter && doneSteps.Some? && DoneReporter in doneSteps.value
       case _ => false
  }

  ghost predicate Twice(ids: seq<Specialist>, id: Specialist) {
    exists i, j :: 0 <= i < j < |ids| && ids[i] == ids[j] == id
  }

  lemma {:induction false} UnregisteredTells(ids: seq<Specialist>)
    ensures forall id :: id in Unregistered(ids) <==> id in ids && !Registered(id)
  {
    if ids != [] {
      UnregisteredTells(ids[1..]);
    }
  }

  lemma {:induction false} RepeatedTells(ids: seq<Specialist>)
    ensures forall id :: id in Repeated(ids) <==> Twice(ids, id)
  {
    if ids != [] {
      var front, last := ids[..|ids| - 1], ids[|ids| - 1];
      RepeatedTells(front);
      forall id ensures Twice(ids, id) <==> Twice(front, id) || (id == last && last in front) {
        if Twice(front, id) {
          var i, j :| 0 <= i < j < |front| && front[i] == front[j] == id;
          assert ids[i] == ids[j] == id;
        }
        if id == last && last in front {
          var i :| 0 <= i < |front| && front[i] == last;
          assert ids[i] == ids[|front|] == id;
        }
        if Twice(ids, id) {
          var i, j :| 0 <= i < j < |ids| && ids[i] == ids[j] == id;
          assert front[i] == id;
          assert j < |front| ==> front[j] == id;
        }
      }
    }
  }

  lemma {:induction false} DoneStepsFail(column: Column, source: Step, ids: seq<Specialist>)
    requires AllRegistered(ids) && DoneSteps(column, source, ids).Err?
    ensures DoneSteps(column, source, ids).error == NoStep(column.stage, DoneReporter)
    ensures DoneReporter in ids && !HasStep(StepsOf(column), DoneReporter)
    decreases |ids|
  {
    FindIsFirst(StepsOf(column), DoneReporter);
    if DoneStep(column, source, ids[0]).Ok? {
      DoneStepsFail(column, source, ids[1..]);
    }
  }

  lemma ColumnTells(columns: seq<Column>, k: nat, doneSteps: Option<seq<Specialist>>)
    requires k < |columns| && MountColumn(columns[k], doneSteps).Err?
    ensures Tells(MountColumn(columns[k], doneSteps).error, columns, doneSteps)
  {
    var column := columns[k];
    var steps := StepsOf(column);
    FindIsFirst(steps, TodoOrchestrator);
    FindIsFirst(steps, DevExecutor);
    FindIsFirst(steps, QaFrontend);
    FindIsFirst(steps, ReviewGuard);
    hide FindStep, BuildStep, HasStep, ReplaceDevExecutors, WithSteps;
    if column.stage == Some(Done) {
      DoneColumnTells(columns, k, doneSteps.value);
    } else {
      assert Lacks(column, MountColumn(column, doneSteps).error.specialist, doneSteps);
    }
  }

  lemma DoneColumnTells(columns: seq<Column>, k: nat, ids: seq<Specialist>)
    requires k < |columns| && columns[k].stage == Some(Done) && WithDoneSteps(columns[k], ids).Err?
    ensures Tells(WithDoneSteps(columns[k], ids).error, columns, Some(ids))
  {
    var column := columns[k];
    var existing := StepsOf(column);
    CheckDoneStepsSpec(ids);
    UnregisteredSpec(ids);
    UnregisteredTells(ids);
    RepeatedTells(ids);
    assert HasStage(columns, Done);
    if CheckDoneSteps(ids).None? {
      var reporter := FindStep(existing, DoneReporter);
      DoneStepsFail(column, if reporter.Some? then reporter.value else if existing != [] then existing[0] else NO_STEP, ids);
      assert Lacks(column, DoneReporter, Some(ids));
    }
  }

  lemma {:induction false} ColumnsTell(columns: seq<Column>, from: nat, doneSteps: Option<seq<Specialist>>)
    requires from <= |columns| && MountColumns(columns[from..], doneSteps).Err?
    ensures Tells(MountColumns(columns[from..], doneSteps).error, columns, doneSteps)
    decreases |columns| - from
  {
    hide Tells, MountColumn;
    assert columns[from..][1..] == columns[from + 1..];
    if MountColumn(columns[from], doneSteps).Err? {
      ColumnTells(columns, from, doneSteps);
    } else {
      ColumnsTell(columns, from + 1, doneSteps);
    }
  }

  /** The error of a mount that fails names a stage without column, a step that a column of the named
      stage needs and has not, or the done steps that are not registered or repeated. */
  lemma ErrorTells(columns: seq<Column>, doneSteps: Option<seq<Specialist>>)
    requires Mount(columns, doneSteps).Err?
    ensures Tells(Mount(columns, doneSteps).error, columns, doneSteps)
  {
    hide MountColumns;
    assert columns[0..] == columns;
    if HasStage(columns, Todo) && HasStage(columns, Dev) && HasStage(columns, Review) {
      ColumnsTell(columns, 0, doneSteps);
    }
  }

  // ----- the designer after the flight checklist -----

  lemma {:induction false} DesignAt(columns: seq<Column>)
    ensures |Design(columns)| == |columns|
    ensures forall k :: 0 <= k < |columns| ==> Design(columns)[k] == DesignColumn(columns[k])
  {
    if columns != [] {
      DesignAt(columns[1..]);
    }
  }

  /** `after` is `before` with one designer step put in behind the first step. */
  predicate DesignerAdded(before: Column, after: Column) {
    && before.automation.Some? && before.automation.value.steps.Some?
    && var steps, next := StepsOf(before), StepsOf(after);
       && after == before.(automation := Some(before.automation.value.(steps := Some(next))))
       && exists at :: 0 < at <= |steps| && |next| == |steps| + 1 && next[at].specialist == Some(Designer)
                       && next[..at] == steps[..at] && next[at + 1..] == steps[at..]
  }

  lemma Inserted(steps: seq<Step>, at: nat, step: Step)
    requires 0 < at <= |steps|
    ensures var next := steps[..at] + [step] + steps[at..];
            && |next| == |steps| + 1 && next[at] == step && next[..at] == steps[..at] && next[at + 1..] == steps[at..]
            && next[0] == steps[0]
  {
  }

  /** The designer mount keeps all existing steps in order and the column's first step and primary
      fields. */
  lemma DesignerOnlyAdds(column: Column)
    ensures DesignColumn(column) == column || DesignerAdded(column, DesignColumn(column))
    ensures Mirrors(column) ==> Mirrors(DesignColumn(column))
  {
    hide BuildStep, HasStep, IndexOfStep;
    var after := DesignColumn(column);
    if after != column {
      var steps := StepsOf(column);
      var orchestrator := IndexOfStep(steps, TodoOrchestrator, 0);
      var setter := IndexOfStep(steps, ContractSetter, orchestrator + 1);
      var at := if setter >= 0 then setter else orchestrator + 1;
      Inserted(steps, at, BuildStep(Designer, steps[orchestrator]));
      assert StepsOf(after) == steps[..at] + [BuildStep(Designer, steps[orchestrator])] + steps[at..];
    }
  }

  lemma AddedKeepsSteps(before: Column, after: Column, specialist: Specialist)
    requires DesignerAdded(before, after) && HasStep(StepsOf(before), specialist)
    ensures HasStep(StepsOf(after), specialist) && HasStep(StepsOf(after), Designer)
  {
    var steps, next := StepsOf(before), StepsOf(after);
    var at :| 0 < at <= |steps| && |next| == |steps| + 1 && next[at].specialist == Some(Designer)
              && next[..at] == steps[..at] && next[at + 1..] == steps[at..];
    var k :| 0 <= k < |steps| && steps[k].specialist == Some(specialist);
    if k < at {
      assert next[k] == next[..at][k] == steps[k];
    } else {
      assert next[k + 1] == next[at + 1..][k - at] == steps[k];
    }
  }

  lemma DesignColumnIsIdempotent(column: Column)
    ensures DesignColumn(DesignColumn(column)) == DesignColumn(column)
  {
    var after := DesignColumn(column);
    DesignerOnlyAdds(column);
    if after != column {
      AddedIsFixed(column, after);
    }
  }

  lemma AddedIsFixed(before: Column, after: Column)
    requires DesignerAdded(before, after)
    ensures DesignColumn(after) == after
  {
    assert HasStep(StepsOf(after), Designer);
  }

  /** After the flight checklist, the designer gives a board that neither of the two changes again. */
  lemma CommonFixedPoint(columns: seq<Column>, doneSteps: Option<seq<Specialist>>)
    requires Mount(columns, doneSteps).Ok?
    ensures var next := Mount(columns, doneSteps).value;
            var both := Design(next);
            && Design(both) == both
            && Mount(both, doneSteps) == Ok(both)
            && |both| == |next|
            && forall k :: 0 <= k < |next| ==>
                 && (both[k] == next[k] || DesignerAdded(next[k], both[k]))
                 && (Mirrors(next[k]) ==> Mirrors(both[k]))
  {
    hide DesignColumn, Mounted, MountColumn, MountColumns, Rewrote, DesignerAdded, Mirrors, Design, HasStage;
    var next := Mount(columns, doneSteps).value;
    var both := Design(next);
    MountColumnsSpec(columns, doneSteps);
    DesignAt(next);
    DesignAt(both);
    forall k | 0 <= k < |next|
      ensures DesignColumn(both[k]) == both[k] && Mounted(both[k], doneSteps)
      ensures both[k] == next[k] || DesignerAdded(next[k], both[k])
      ensures Mirrors(next[k]) ==> Mirrors(both[k])
      ensures both[k].stage == columns[k].stage
    {
      DesignColumnIsIdempotent(next[k]);
      DesignerOnlyAdds(next[k]);
      DesignKeepsMounted(columns[k], next[k], doneSteps);
    }
    SameStages(columns, both);
    AllMountedStay(both, doneSteps);
    assert Design(both) == both;
  }

  lemma DesignKeepsMounted(before: Column, column: Column, doneSteps: Option<seq<Specialist>>)
    requires Mounted(column, doneSteps) && Rewrote(before, column)
    ensures Mounted(DesignColumn(column), doneSteps) && DesignColumn(column).stage == before.stage
  {
    hide HasStep, BuildStep;
    DesignerOnlyAdds(column);
    if DesignColumn(column) != column {
      AddedKeepsSteps(column, DesignColumn(column), ContractSetter);
    }
  }

  // ----- what the new steps are -----

  /** `step` is what its specialist's template says, named in the language of `source`; it runs with
      the runtime settings of `source`, and takes nothing else from it. */
  predicate Carries(step: Step, source: Step) {
    && step.specialist.Some? && TemplateOf(step.specialist.value).Some?
    && var template := TemplateOf(step.specialist.value).value;
    && step.id == Some(template.id) && step.role == Some(template.role)
    && (IsChineseLocale(source) ==> step.name == Some(template.zh))
    && (!IsChineseLocale(source) ==> step.name == Some(template.en))
    && step.fields.Keys == source.fields.Keys * CARRIED_FIELDS
    && forall key :: key in step.fields ==> step.fields[key] == source.fields[key]
  }

  lemma BuildStepCarries(specialist: Specialist, source: Step)
    requires TemplateOf(specialist).Some?
    ensures Carries(BuildStep(specialist, source), source)
  {
  }

  /** A done step that was not there: the main pusher as the script spells it out, and the TopBI
      porter from the reporter, or else from the column's first step. */
  lemma NewDoneStep(column: Column, ids: seq<Specialist>, k: nat)
    requires WithDoneSteps(column, ids).Ok? && k < |ids| && !HasStep(StepsOf(column), ids[k])
    ensures var before, after := StepsOf(column), StepsOf(WithDoneSteps(column, ids).value);
            var reporter := FindStep(before, DoneReporter);
            && k < |after| && (ids[k] == MainPusher || ids[k] == TopBiPorter)
            && (ids[k] == MainPusher ==>
                  after[k] == Step(Some("main-pusher"), Some(Developer), Some(MainPusher), Some("Main Pusher"), map[]))
            && (ids[k] == TopBiPorter && reporter.Some? ==> Carries(after[k], reporter.value))
            && (ids[k] == TopBiPorter && reporter.None? && before != [] ==> Carries(after[k], before[0]))
            && (ids[k] == TopBiPorter && before == [] ==> after[k].fields == map[] && after[k].name == Some("TopBI Porter"))
  {
    var existing := StepsOf(column);
    var reporter := FindStep(existing, DoneReporter);
    var source := if reporter.Some? then reporter.value else if existing != [] then existing[0] else NO_STEP;
    CheckDoneStepsSpec(ids);
    DoneStepsSpec(column, source, ids);
    StepsOfWithSteps(column, DoneSteps(column, source, ids).value);
    FindIsFirst(existing, ids[k]);
    BuildStepCarries(TopBiPorter, source);
    hide Carries, HasStep, FindStep;
  }

  /** A todo column without contract setter ends with its orchestrator and, behind it, the setter. */
  lemma NewTodo(column: Column)
    requires MountTodo(column).Ok? && !HasStep(StepsOf(column), ContractSetter)
    ensures var steps := StepsOf(MountTodo(column).value);
            && IdsAre(steps, [TodoOrchestrator, ContractSetter])
            && Some(steps[0]) == FindStep(StepsOf(column), TodoOrchestrator)
            && Carries(steps[1], steps[0])
  {
    hide BuildStep, Carries;
    var orchestrator := RequireStep(column, TodoOrchestrator).value;
    BuildStepCarries(ContractSetter, orchestrator);
    StepsOfWithSteps(column, [orchestrator, BuildStep(ContractSetter, orchestrator)]);
  }

  /** A dev column without flight executor keeps every step in its place but the dev executors. */
  lemma NewDev(column: Column, k: nat)
    requires MountDev(column).Ok? && !HasStep(StepsOf(column), FlightDevExecutor) && k < |StepsOf(column)|
    ensures var before, after := StepsOf(column), StepsOf(MountDev(column).value);
            && |after| == |before|
            && (if before[k].specialist == Some(DevExecutor)
                then after[k].specialist == Some(FlightDevExecutor) && Carries(after[k], before[k])
                else after[k] == before[k])
  {
    hide BuildStep, Carries;
    ReplacedAt(StepsOf(column));
    BuildStepCarries(FlightDevExecutor, StepsOf(column)[k]);
    StepsOfWithSteps(column, ReplaceDevExecutors(StepsOf(column)));
  }

  /** A review column that lacks a flight step ends with its QA step and the two flight steps, which
      take over the settings of the old guard. */
  lemma NewReview(column: Column)
    requires MountReview(column).Ok?
    requires !(HasStep(StepsOf(column), FlightReviewGuard) && HasStep(StepsOf(column), HighRiskReviewer))
    ensures var before, after := StepsOf(column), StepsOf(MountReview(column).value);
            && IdsAre(after, [QaFrontend, FlightReviewGuard, HighRiskReviewer])
            && Some(after[0]) == FindStep(before, QaFrontend)
            && FindStep(before, ReviewGuard).Some?
            && Carries(after[1], FindStep(before, ReviewGuard).value)
            && Carries(after[2], FindStep(before, ReviewGuard).value)
  {
    hide BuildStep, Carries;
    var qa, guard := RequireStep(column, QaFrontend).value, RequireStep(column, ReviewGuard).value;
    BuildStepCarries(FlightReviewGuard, guard);
    BuildStepCarries(HighRiskReviewer, guard);
    StepsOfWithSteps(column, [qa, BuildStep(FlightReviewGuard, guard), BuildStep(HighRiskReviewer, guard)]);
  }

  lemma {:induction false} IndexOfStepSpec(steps: seq<Step>, specialist: Specialist, from: nat)
    ensures var i := IndexOfStep(steps, specialist, from);
            && (i >= 0 ==> steps[i].specialist == Some(specialist))
            && (forall j :: from <= j < (if i >= 0 then i else |steps|) ==> steps[j].specialist != Some(specialist))
    decreases |steps| - from
  {
    if from < |steps| && steps[from].specialist != Some(specialist) {
      IndexOfStepSpec(steps, specialist, from + 1);
    }
  }

  /** The place for the designer: behind the first orchestrator, at the next contract setter if there
      is one and right behind the orchestrator if not. */
  predicate DesignerPlace(steps: seq<Step>, o: int, at: int) {
    && 0 <= o < at <= |steps|
    && steps[o].specialist == Some(TodoOrchestrator)
    && (forall j :: 0 <= j < o ==> steps[j].specialist != Some(TodoOrchestrator))
    && (|| (at < |steps| && steps[at].specialist == Some(ContractSetter)
            && forall j :: o < j < at ==> steps[j].specialist != Some(ContractSetter))
        || (at == o + 1 && forall j :: o < j < |steps| ==> steps[j].specialist != Some(ContractSetter)))
  }

  /** The designer mount changes a column exactly when it is a todo column with an orchestrator and
      without a designer; then the designer stands in its place, with the orchestrator's settings. */
  lemma NewDesigner(column: Column)
    ensures var before, after := StepsOf(column), StepsOf(DesignColumn(column));
            if column.stage == Some(Todo) && HasStep(before, TodoOrchestrator) && !HasStep(before, Designer)
            then exists o, at :: DesignerPlace(before, o, at) && |after| == |before| + 1
                                 && after[..at] == before[..at] && after[at + 1..] == before[at..]
                                 && after[at].specialist == Some(Designer) && Carries(after[at], before[o])
            else DesignColumn(column) == column
  {
    hide BuildStep, Carries, IndexOfStep, HasStep, DesignerPlace;
    var steps := StepsOf(column);
    IndexOfStepSpec(steps, TodoOrchestrator, 0);
    var o := IndexOfStep(steps, TodoOrchestrator, 0);
    assert HasStep(steps, TodoOrchestrator) <==> o >= 0 by {
      HasStepIff(steps, TodoOrchestrator, o);
    }
    if column.stage == Some(Todo) && o >= 0 && !HasStep(steps, Designer) {
      var setter := IndexOfStep(steps, ContractSetter, o + 1);
      var at := if setter >= 0 then setter else o + 1;
      assert DesignerPlace(steps, o, at) by {
        IndexOfStepSpec(steps, ContractSetter, o + 1);
        PlaceFound(steps, o, setter);
      }
      BuildStepCarries(Designer, steps[o]);
      Inserted(steps, at, BuildStep(Designer, steps[o]));
      assert StepsOf(DesignColumn(column)) == steps[..at] + [BuildStep(Designer, steps[o])] + steps[at..];
    }
  }

  lemma HasStepIff(steps: seq<Step>, specialist: Specialist, i: int)
    requires -1 <= i < |steps| && (i >= 0 ==> steps[i].specialist == Some(specialist))
    requires i == -1 ==> forall j :: 0 <= j < |steps| ==> steps[j].specialist != Some(specialist)
    ensures HasStep(steps, specialist) <==> i >= 0
  {
  }

  lemma PlaceFound(steps: seq<Step>, o: nat, setter: int)
    requires o < |steps| && steps[o].specialist == Some(TodoOrchestrator)
    requires forall j :: 0 <= j < o ==> steps[j].specialist != Some(TodoOrchestrator)
    requires setter == -1 || (o < setter < |steps| && steps[setter].specialist == Some(ContractSetter))
    requires forall j :: o + 1 <= j < (if setter >= 0 then setter else |steps|) ==> steps[j].specialist != Some(ContractSetter)
    ensures DesignerPlace(steps, o, if setter >= 0 then setter else o + 1)
  {
  }

  // ----- the flight checklist after the designer -----

  /** Mounting the flight checklist on a todo column that has a designer keeps the designer exactly
      when the contract setter is there already; otherwise the designer is dropped. */
  lemma DesignerSurvivesIff(column: Column)
    requires column.stage == Some(Todo) && HasStep(StepsOf(column), Designer) && MountTodo(column).Ok?
    ensures HasStep(StepsOf(MountTodo(column).value), Designer) <==> HasStep(StepsOf(column), ContractSetter)
  {
    if !HasStep(StepsOf(column), ContractSetter) {
      hide BuildStep;
      var orchestrator := RequireStep(column, TodoOrchestrator).value;
      var steps := [orchestrator, BuildStep(ContractSetter, orchestrator)];
      StepsOfWithSteps(column, steps);
      assert StepsOf(MountTodo(column).value) == steps;
    }
  }

  // ----- a board -----

  function StepOf(specialist: Specialist): Step {
    Step(None, None, Some(specialist), None, map[])
  }

  function ColumnOf(stage: Stage, steps: seq<Step>): Column {
    WithSteps(Column(Some(stage), None, map[]), steps)
  }

  /** A board with the steps the flight checklist replaces. */
  function FreshBoard(): seq<Column> {
    [ColumnOf(Todo, [StepOf(TodoOrchestrator)]),
     ColumnOf(Dev, [StepOf(DevExecutor)]),
     ColumnOf(Review, [StepOf(QaFrontend), StepOf(ReviewGuard)])]
  }

  lemma Has(steps: seq<Step>, k: nat, specialist: Specialist)
    requires k < |steps| && steps[k].specialist == Some(specialist)
    ensures HasStep(steps, specialist)
  {
  }

  lemma StageAt(columns: seq<Column>, k: nat, stage: Stage)
    requires k < |columns| && columns[k].stage == Some(stage)
    ensures HasStage(columns, stage)
  {
  }

  /** A board whose columns have these stages and steps mounts. */
  lemma FreshBoardMounts(columns: seq<Column>)
    requires |columns| == 3 && columns[1..] == FreshBoard()[1..]
    requires columns[0].stage == Some(Todo) && HasStep(StepsOf(columns[0]), TodoOrchestrator)
    ensures Mount(columns, None).Ok?
  {
    hide HasStep, HasStage, Mount;
    assert columns[1] == FreshBoard()[1..][0] && columns[2] == FreshBoard()[1..][1];
    StageAt(columns, 0, Todo);
    StageAt(columns, 1, Dev);
    StageAt(columns, 2, Review);
    Has(StepsOf(columns[1]), 0, DevExecutor);
    Has(StepsOf(columns[2]), 0, QaFrontend);
    Has(StepsOf(columns[2]), 1, ReviewGuard);
    forall k | 0 <= k < 3 ensures Ready(columns[k], None) {
    }
    MountSucceedsIff(columns, None);
  }

  lemma FreshBoardChanges()
    ensures Mount(FreshBoard(), None).Ok? && Mount(FreshBoard(), None).value != FreshBoard()
  {
    Has(StepsOf(FreshBoard()[0]), 0, TodoOrchestrator);
    FreshBoardMounts(FreshBoard());
    MountColumnsSpec(FreshBoard(), None);
    assert Mounted(Mount(FreshBoard(), None).value[0], None);
    assert StepsOf(FreshBoard()[0]) == [StepOf(TodoOrchestrator)];
  }

  /** The fresh board gets a designer, and the flight checklist mounted after it drops the designer. */
  lemma DesignerIsDropped()
    ensures var designed := Design(FreshBoard());
            && HasStep(StepsOf(designed[0]), Designer)
            && Mount(designed, None).Ok?
            && !HasStep(StepsOf(Mount(designed, None).value[0]), Designer)
  {
    hide HasStep, Mount, BuildStep;
    var designed := Design(FreshBoard());
    DesignAt(FreshBoard());
    var orchestrator := StepOf(TodoOrchestrator);
    FreshTodoIsDesigned(orchestrator);
    assert designed[1..] == FreshBoard()[1..];
    FreshBoardMounts(designed);
    MountAtZero(designed);
    DesignerSurvivesIff(designed[0]);
  }

  lemma FreshTodoIsDesigned(orchestrator: Step)
    requires orchestrator == StepOf(TodoOrchestrator)
    ensures var column := DesignColumn(FreshBoard()[0]);
            && column.stage == Some(Todo)
            && StepsOf(column) == [orchestrator, BuildStep(Designer, orchestrator)]
            && HasStep(StepsOf(column), TodoOrchestrator) && HasStep(StepsOf(column), Designer)
            && !HasStep(StepsOf(column), ContractSetter)
  {
    hide BuildStep;
    var steps := [orchestrator];
    assert StepsOf(FreshBoard()[0]) == steps;
    assert IndexOfStep(steps, TodoOrchestrator, 0) == 0 && IndexOfStep(steps, ContractSetter, 1) == -1;
    assert steps[..1] + [BuildStep(Designer, steps[0])] + steps[1..] == [orchestrator, BuildStep(Designer, orchestrator)];
    assert StepsOf(DesignColumn(FreshBoard()[0])) == [orchestrator, BuildStep(Designer, orchestrator)];
    Has(StepsOf(DesignColumn(FreshBoard()[0])), 0, TodoOrchestrator);
    Has(StepsOf(DesignColumn(FreshBoard()[0])), 1, Designer);
  }

  lemma MountAtZero(columns: seq<Column>)
    requires Mount(columns, None).Ok? && columns != [] && columns[0].stage == Some(Todo)
    ensures MountTodo(columns[0]).Ok? && Mount(columns, None).value[0] == MountTodo(columns[0]).value
  {
  }
}
