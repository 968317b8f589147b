/** The goal tracker: goals of four classes (the base `Goal`, `SimpleGoal`,
    `EternalGoal`, `ChecklistGoal`), a program object that owns an ordered list of
    them and a score, recording of events against goals by name, and the
    comma-separated line format goals are saved in and loaded from. */
module EternalQuest {
  import opened Wrappers
  import opened Text
  import opened LineFiles

  /** Which C# class a goal object belongs to. */
  datatype Variant = BaseGoal | SimpleGoal | EternalGoal | ChecklistGoal

  /** The state of one goal object. `timesCompleted` and `totalTimes` are fields
      of `ChecklistGoal` only; the other classes keep them at 0. */
  datatype GoalState = GoalState(
    variant: Variant,
    name: string,
    value: int,
    isCompleted: bool,
    timesCompleted: int,
    totalTimes: int)

  /** The state every constructor starts a goal in. */
  function NewGoal(variant: Variant, name: string, value: int, totalTimes: int): (g: GoalState)
    ensures !g.isCompleted && g.timesCompleted == 0
  {
    GoalState(variant, name, value, false, 0, if variant == ChecklistGoal then totalTimes else 0)
  }

  /** What `MarkComplete` does to a goal. `SimpleGoal` and `EternalGoal` use the
      base method (the simple goal only adds a message), so only the checklist
      behaves differently. */
  function Marked(g: GoalState): (r: GoalState)
    ensures r.variant == g.variant && r.name == g.name && r.value == g.value
    ensures r.totalTimes == g.totalTimes
    ensures g.isCompleted ==> r.isCompleted
    ensures g.variant != ChecklistGoal ==> r.isCompleted && r.timesCompleted == g.timesCompleted
    ensures g.variant != ChecklistGoal && g.isCompleted ==> r == g
    ensures g.variant == ChecklistGoal ==>
      && r.timesCompleted == g.timesCompleted + 1
      && (r.isCompleted <==> g.isCompleted || r.timesCompleted >= g.totalTimes)
  {
    if g.variant == ChecklistGoal then
      var times := g.timesCompleted + 1;
      g.(timesCompleted := times, isCompleted := if times >= g.totalTimes then true else g.isCompleted)
    else
      g.(isCompleted := true)
  }

  function YesNo(b: bool): string
  {
    if b then "Yes" else "No"
  }

  /** The line `ShowProgress` prints for a goal. */
  function ProgressLine(g: GoalState): string
  {
    var tail := g.name + " - Completed: ";
    match g.variant
    case ChecklistGoal => "Checklist Goal: " + (tail + IntToString(g.timesCompleted) + "/" + IntToString(g.totalTimes))
    case EternalGoal => "Eternal Goal: " + tail + YesNo(g.isCompleted)
    case _ => "Goal: " + tail + YesNo(g.isCompleted)
  }

  /** The label of a goal's class tells a checklist and an eternal goal from the
      others, and the line of any goal but a checklist ends in "Yes" exactly when
      the goal is completed. */
  lemma ProgressLineLabels(g: GoalState)
    ensures var r := ProgressLine(g);
      && (g.variant == ChecklistGoal <==> |r| >= 16 && r[..16] == "Checklist Goal: ")
      && (g.variant == EternalGoal <==> |r| >= 14 && r[..14] == "Eternal Goal: ")
      && (g.variant != ChecklistGoal ==> |r| >= 3 && (g.isCompleted <==> r[|r| - 3..] == "Yes"))
  {
    match g.variant
    case ChecklistGoal => ChecklistLabel(g);
    case EternalGoal => EternalLabel(g);
    case _ => PlainLabel(g);
  }

  /** A checklist's line starts with its label and so not with the eternal one. */
  lemma ChecklistLabel(g: GoalState)
    requires g.variant == ChecklistGoal
    ensures var r := ProgressLine(g);
      && |r| >= 16 && r[..16] == "Checklist Goal: "
      && !(|r| >= 14 && r[..14] == "Eternal Goal: ")
  {
    var r := ProgressLine(g);
    assert r[..16] == "Checklist Goal: " && r[0] == 'C';
    NotLabelled(r, "Eternal Goal: ");
  }

  /** An eternal goal's line starts with its label and ends with its status. */
  lemma EternalLabel(g: GoalState)
    requires g.variant == EternalGoal
    ensures var r := ProgressLine(g);
      && !(|r| >= 16 && r[..16] == "Checklist Goal: ")
      && |r| >= 14 && r[..14] == "Eternal Goal: "
      && |r| >= 3 && (g.isCompleted <==> r[|r| - 3..] == "Yes")
  {
    var head := "Eternal Goal: " + (g.name + " - Completed: ");
    var r := ProgressLine(g);
    assert r == head + YesNo(g.isCompleted);
    EndsWithStatus(head, g.isCompleted);
    assert r[..14] == "Eternal Goal: " && r[0] == 'E';
    NotLabelled(r, "Checklist Goal: ");
  }

  /** A base or simple goal's line carries neither label and ends with its status. */
  lemma PlainLabel(g: GoalState)
    requires g.variant != ChecklistGoal && g.variant != EternalGoal
    ensures var r := ProgressLine(g);
      && !(|r| >= 16 && r[..16] == "Checklist Goal: ")
      && !(|r| >= 14 && r[..14] == "Eternal Goal: ")
      && |r| >= 3 && (g.isCompleted <==> r[|r| - 3..] == "Yes")
  {
    var head := "Goal: " + (g.name + " - Completed: ");
    var r := ProgressLine(g);
    assert r == head + YesNo(g.isCompleted);
    EndsWithStatus(head, g.isCompleted);
    assert r[0] == 'G';
    NotLabelled(r, "Checklist Goal: ");
    NotLabelled(r, "Eternal Goal: ");
  }

  /** A line whose first character differs from a label's does not start with it. */
  lemma NotLabelled(r: string, tag: string)
    requires |r| >= 1 && |tag| >= 1 && r[0] != tag[0]
    ensures !(|r| >= |tag| && r[..|tag|] == tag)
  {
    if |r| >= |tag| {
      assert r[..|tag|][0] == r[0];
    }
  }

  /** A line ending in a space and then "Yes" or "No" ends in "Yes" exactly for "Yes". */
  lemma EndsWithStatus(head: string, b: bool)
    requires |head| >= 1 && head[|head| - 1] == ' '
    ensures var r := head + YesNo(b); |r| >= 3 && (b <==> r[|r| - 3..] == "Yes")
  {
    var r := head + YesNo(b);
    if !b {
      assert r[|r| - 3] == ' ';
    }
  }

  // ---------------------------------------------------------------- goal objects

  class Goal {
    const variant: Variant
    var name: string
    var value: int
    var isCompleted: bool
    var timesCompleted: int
    var totalTimes: int

    function State(): GoalState
      reads this
    {
      GoalState(variant, name, value, isCompleted, timesCompleted, totalTimes)
    }

    /** `new Goal(name, value)`. */
    constructor Base(name: string, value: int)
      ensures State() == NewGoal(BaseGoal, name, value, 0)
    {
      this.variant, this.name, this.value := BaseGoal, name, value;
      isCompleted, timesCompleted, totalTimes := false, 0, 0;
    }

    /** `new SimpleGoal(name, value)`. */
    constructor Simple(name: string, value: int)
      ensures State() == NewGoal(SimpleGoal, name, value, 0)
    {
      this.variant, this.name, this.value := SimpleGoal, name, value;
      isCompleted, timesCompleted, totalTimes := false, 0, 0;
    }

    /** `new EternalGoal(name, value)`. */
    constructor Eternal(name: string, value: int)
      ensures State() == NewGoal(EternalGoal, name, value, 0)
    {
      this.variant, this.name, this.value := EternalGoal, name, value;
      isCompleted, timesCompleted, totalTimes := false, 0, 0;
    }

    /** `new ChecklistGoal(name, value, totalTimes)`. */
    constructor Checklist(name: string, value: int, totalTimes: int)
      ensures State() == NewGoal(ChecklistGoal, name, value, totalTimes)
    {
      this.variant, this.name, this.value := ChecklistGoal, name, value;
      isCompleted, timesCompleted, this.totalTimes := false, 0, totalTimes;
    }

    method MarkComplete()
      modifies this
      ensures State() == Marked(old(State()))
    {
      if variant == ChecklistGoal {
        timesCompleted := timesCompleted + 1;
        if timesCompleted >= totalTimes {
          isCompleted := true;
        }
      } else {
        isCompleted := true;
      }
    }
  }

  // ---------------------------------------------------------------- the program state

  /** The program's list of goals and its score, as values. */
  datatype Quest = Quest(goals: seq<GoalState>, score: int)

  predicate IsOpen(g: GoalState, name: string)
  {
    g.name == name && !g.isCompleted
  }

  /** `goals.Find(g => g.Name == name && !g.IsCompleted)`, as a position. */
  function FirstOpen(gs: seq<GoalState>, name: string): (r: Option<nat>)
    ensures r.Some? ==> r.value < |gs| && IsOpen(gs[r.value], name)
    ensures r.Some? ==> forall j | 0 <= j < r.value :: !IsOpen(gs[j], name)
    ensures r.None? ==> forall j | 0 <= j < |gs| :: !IsOpen(gs[j], name)
  {
    if |gs| == 0 then None
    else if IsOpen(gs[0], name) then Some(0)
    else
      match FirstOpen(gs[1..], name)
      case None => None
      case Some(k) => Some(k + 1)
  }

  /** What `RecordEvent(name)` does to the list and the score. */
  function Record(q: Quest, name: string): (r: Quest)
    ensures |r.goals| == |q.goals|
    ensures FirstOpen(q.goals, name).None? ==> r == q
    ensures FirstOpen(q.goals, name).Some? ==>
      var i := FirstOpen(q.goals, name).value;
      && r.goals[i] == Marked(q.goals[i])
      && r.score == q.score + q.goals[i].value
      && forall j | 0 <= j < |q.goals| && j != i :: r.goals[j] == q.goals[j]
  {
    match FirstOpen(q.goals, name)
    case None => q
    case Some(i) => Quest(q.goals[i := Marked(q.goals[i])], q.score + q.goals[i].value)
  }

  /** Recording one event per name, in order. */
  function RecordAll(q: Quest, names: seq<string>): Quest
    decreases |names|
  {
    if |names| == 0 then q else RecordAll(Record(q, names[0]), names[1..])
  }

  /** Recording `k` events against the same name. */
  function RecordTimes(q: Quest, name: string, k: nat): Quest
  {
    if k == 0 then q else Record(RecordTimes(q, name, k - 1), name)
  }

  /** Goal `i` is the only goal called `name`. */
  predicate OnlyGoalNamed(gs: seq<GoalState>, name: string, i: nat)
  {
    i < |gs| && gs[i].name == name && forall j | 0 <= j < |gs| && j != i :: gs[j].name != name
  }

  /** A base, simple or eternal goal is completed by a single event, and later
      events against its name then change nothing: in particular an eternal goal
      awards its points once only, because `EternalGoal` does not override
      `MarkComplete`. */
  lemma SingleEventCompletes(q: Quest, name: string, i: nat)
    requires OnlyGoalNamed(q.goals, name, i)
    requires q.goals[i].variant != ChecklistGoal && !q.goals[i].isCompleted
    ensures var r := Record(q, name);
      && r.goals == q.goals[i := q.goals[i].(isCompleted := true)]
      && r.score == q.score + q.goals[i].value
      && Record(r, name) == r
  {
    var r := Record(q, name);
    assert FirstOpen(q.goals, name) == Some(i);
    assert FirstOpen(r.goals, name).None? by {
      forall j | 0 <= j < |r.goals| ensures !IsOpen(r.goals[j], name) {
        if j != i {
          assert r.goals[j] == q.goals[j];
        }
      }
    }
  }

  /** One event against the only goal called `name`, a checklist that has `m`
      of its `totalTimes` completions. */
  lemma ChecklistStep(p: Quest, name: string, i: nat)
    requires OnlyGoalNamed(p.goals, name, i)
    requires var g := p.goals[i];
      g.variant == ChecklistGoal && 0 <= g.timesCompleted <= g.totalTimes
      && g.isCompleted == (g.timesCompleted >= g.totalTimes)
    ensures var g := p.goals[i];
      Record(p, name) ==
        if g.timesCompleted < g.totalTimes then
          Quest(p.goals[i := g.(timesCompleted := g.timesCompleted + 1, isCompleted := g.timesCompleted + 1 >= g.totalTimes)],
                p.score + g.value)
        else p
  {
    var g := p.goals[i];
    if g.timesCompleted < g.totalTimes {
      assert FirstOpen(p.goals, name) == Some(i);
    } else {
      assert FirstOpen(p.goals, name).None? by {
        forall j | 0 <= j < |p.goals| ensures !IsOpen(p.goals[j], name) {
        }
      }
    }
  }

  /** One event against the only goal called `name`, a checklist in any state
      (a reloaded one that is completed below its target, or a fresh one of
      target 0, included): an open checklist gains one completion, pays its
      value and is completed once the count reaches the target; a completed one
      is not found, so nothing changes. */
  lemma ChecklistEvent(p: Quest, name: string, i: nat)
    requires OnlyGoalNamed(p.goals, name, i)
    requires p.goals[i].variant == ChecklistGoal
    ensures var g := p.goals[i];
      Record(p, name) ==
        if !g.isCompleted then
          Quest(p.goals[i := g.(timesCompleted := g.timesCompleted + 1, isCompleted := g.timesCompleted + 1 >= g.totalTimes)],
                p.score + g.value)
        else p
  {
    if !p.goals[i].isCompleted {
      assert FirstOpen(p.goals, name) == Some(i);
    } else {
      assert FirstOpen(p.goals, name).None? by {
        forall j | 0 <= j < |p.goals| ensures !IsOpen(p.goals[j], name) {
        }
      }
    }
  }

  /** A fresh checklist goal of target `totalTimes >= 1` that is the only goal
      with its name counts events: after `k` of them it shows `min(k, totalTimes)`
      completions, is completed exactly when `k >= totalTimes`, and has awarded
      its value once per counted event; events beyond the target change nothing. */
  lemma {:induction false} ChecklistCountsEvents(q: Quest, name: string, i: nat, k: nat)
    requires OnlyGoalNamed(q.goals, name, i)
    requires q.goals[i].variant == ChecklistGoal && q.goals[i].totalTimes >= 1
    requires q.goals[i].timesCompleted == 0 && !q.goals[i].isCompleted
    ensures var g := q.goals[i];
      var m := if k < g.totalTimes then k else g.totalTimes;
      && RecordTimes(q, name, k).goals == q.goals[i := g.(timesCompleted := m, isCompleted := m >= g.totalTimes)]
      && RecordTimes(q, name, k).score == q.score + m * g.value
  {
    if k > 0 {
      ChecklistCountsEvents(q, name, i, k - 1);
      var g := q.goals[i];
      var m := if k - 1 < g.totalTimes then k - 1 else g.totalTimes;
      ChecklistCountsStep(q, RecordTimes(q, name, k - 1), name, i, m);
    }
  }

  /** The inductive step of `ChecklistCountsEvents`: from a quest `p` where the
      checklist shows `m` completions, one more event raises the count by one
      and pays the value once, unless the target is already reached. */
  lemma ChecklistCountsStep(q: Quest, p: Quest, name: string, i: nat, m: nat)
    requires OnlyGoalNamed(q.goals, name, i)
    requires q.goals[i].variant == ChecklistGoal && m <= q.goals[i].totalTimes
    requires var g := q.goals[i];
      && p.goals == q.goals[i := g.(timesCompleted := m, isCompleted := m >= g.totalTimes)]
      && p.score == q.score + m * g.value
    ensures var g := q.goals[i];
      var n := if m < g.totalTimes then m + 1 else m;
      && Record(p, name).goals == q.goals[i := g.(timesCompleted := n, isCompleted := n >= g.totalTimes)]
      && Record(p, name).score == q.score + n * g.value
  {
    var g := q.goals[i];
    assert p.goals[i] == g.(timesCompleted := m, isCompleted := m >= g.totalTimes);
    assert OnlyGoalNamed(p.goals, name, i) by {
      assert forall j | 0 <= j < |p.goals| && j != i :: p.goals[j] == q.goals[j];
    }
    ChecklistStep(p, name, i);
    if m < g.totalTimes {
      assert (m + 1) * g.value == m * g.value + g.value;
    }
  }

  /** The bound a checklist keeps while only events change it: at most
      `max(totalTimes, 1)` completions, and fewer while it is still open. */
  predicate WithinBound(g: GoalState)
  {
    var cap := if g.totalTimes > 1 then g.totalTimes else 1;
    g.variant == ChecklistGoal ==>
      0 <= g.timesCompleted <= cap && (!g.isCompleted ==> g.timesCompleted < cap)
  }

  predicate AllWithinBound(gs: seq<GoalState>)
  {
    forall i | 0 <= i < |gs| :: WithinBound(gs[i])
  }

  lemma NewGoalWithinBound(variant: Variant, name: string, value: int, totalTimes: int)
    ensures WithinBound(NewGoal(variant, name, value, totalTimes))
  {
  }

  /** One event keeps every goal within its bound. */
  lemma RecordKeepsBound(q: Quest, name: string)
    requires AllWithinBound(q.goals)
    ensures AllWithinBound(Record(q, name).goals)
  {
    var r := Record(q, name);
    if FirstOpen(q.goals, name).Some? {
      var i := FirstOpen(q.goals, name).value;
      assert WithinBound(r.goals[i]);
      forall j | 0 <= j < |r.goals| ensures WithinBound(r.goals[j]) {
        if j != i {
          assert r.goals[j] == q.goals[j];
        }
      }
    }
  }

  /** However many events are recorded, a checklist never passes
      `max(totalTimes, 1)` completions. */
  lemma {:induction false} EventsKeepBound(q: Quest, names: seq<string>)
    requires AllWithinBound(q.goals)
    ensures AllWithinBound(RecordAll(q, names).goals)
    ensures |RecordAll(q, names).goals| == |q.goals|
    decreases |names|
  {
    if |names| > 0 {
      RecordKeepsBound(q, names[0]);
      EventsKeepBound(Record(q, names[0]), names[1..]);
    }
  }

  // ---------------------------------------------------------------- the line format

  /** The fields `GetGoalInfo` writes: name, value and completion for every goal,
      then the two counters for a checklist. */
  function Fields(g: GoalState): (fs: seq<string>)
    ensures |fs| == if g.variant == ChecklistGoal then 5 else 3
    ensures fs[0] == g.name
    ensures forall k | 1 <= k < |fs| :: ',' !in fs[k]
  {
    [g.name, IntToString(g.value), BoolToString(g.isCompleted)]
    + (if g.variant == ChecklistGoal then [IntToString(g.timesCompleted), IntToString(g.totalTimes)] else [])
  }

  /** `GetGoalInfo()`: the fields joined by commas. When the name holds no
      comma, the line splits back into exactly the fields written: three for a
      base, simple or eternal goal, five for a checklist. */
  function GoalInfo(g: GoalState): (line: string)
    ensures ',' !in g.name ==> Split(line, ',') == Fields(g)
  {
    FieldsSplitBack(g);
    Join(Fields(g), ',')
  }

  /** Joining a goal's fields by commas and splitting at the commas gives the
      fields back, when the name holds no comma. */
  lemma FieldsSplitBack(g: GoalState)
    ensures ',' !in g.name ==> Split(Join(Fields(g), ','), ',') == Fields(g)
  {
    if ',' !in g.name {
      SplitJoin(Fields(g), ',');
    }
  }

  /** The goal `LoadGoals` builds from parsed fields: a checklist when the target
      is positive, marked once after its flag is restored (so it always has one
      completion), otherwise a base `Goal` with the saved flag. */
  function Rebuilt(name: string, value: int, isCompleted: bool, totalTimes: int): (g: GoalState)
    ensures g.name == name && g.value == value && g.totalTimes == (if totalTimes > 0 then totalTimes else 0)
    ensures g.variant == (if totalTimes > 0 then ChecklistGoal else BaseGoal)
    ensures totalTimes > 0 ==> g.timesCompleted == 1 && (g.isCompleted <==> isCompleted || totalTimes <= 1)
    ensures totalTimes <= 0 ==> g.timesCompleted == 0 && g.isCompleted == isCompleted
  {
    if totalTimes > 0 then
      Marked(NewGoal(ChecklistGoal, name, value, totalTimes).(isCompleted := isCompleted))
    else
      var g := NewGoal(BaseGoal, name, value, 0).(isCompleted := isCompleted);
      if isCompleted then Marked(g) else g
  }

  /** One line of `LoadGoals`: `None` where the C# code throws, which it does
      whenever the line has fewer than five fields (`parts[3]`, `parts[4]`) or a
      field does not parse. */
  function ParseGoalLine(line: string): (r: Option<GoalState>)
    ensures r.Some? ==> |Split(line, ',')| >= 5 && r.value.name == Split(line, ',')[0]
    ensures r.Some? ==> var total := ParseInt32(Split(line, ',')[4]);
      total.Some? && (r.value.variant == ChecklistGoal <==> total.value > 0)
    ensures r.Some? ==> r.value.variant in {BaseGoal, ChecklistGoal} && WithinBound(r.value)
    ensures r.Some? && r.value.variant == ChecklistGoal ==> r.value.timesCompleted == 1
  {
    var parts := Split(line, ',');
    if |parts| < 5 then None
    else
      var value, isCompleted, timesCompleted, totalTimes :=
        ParseInt32(parts[1]), ParseBool(parts[2]), ParseInt32(parts[3]), ParseInt32(parts[4]);
      if value.None? || isCompleted.None? || timesCompleted.None? || totalTimes.None? then None
      else Some(Rebuilt(parts[0], value.value, isCompleted.value, totalTimes.value))
  }

  /** The lines `SaveGoals` writes, one per goal in list order. */
  function SaveLines(gs: seq<GoalState>): (lines: seq<string>)
    ensures |lines| == |gs|
    ensures forall i | 0 <= i < |gs| :: lines[i] == GoalInfo(gs[i])
  {
    seq(|gs|, i requires 0 <= i < |gs| => GoalInfo(gs[i]))
  }

  /** The goals a `LoadGoals` of `lines` leaves behind, and whether it finished. */
  function LoadGoalLines(lines: seq<string>): Loaded<GoalState>
  {
    LoadLines(lines, ParseGoalLine)
  }

  /** `LoadLinesStopsAt` instantiated with `ParseGoalLine`. It states nothing
      new: `LoadGoals` calls it instead of the generic lemma because the
      instantiated form is much cheaper for the verifier there. */
  lemma GoalLinesStopAt(lines: seq<string>, items: seq<GoalState>)
    requires |items| <= |lines|
    requires forall i | 0 <= i < |items| :: ParseGoalLine(lines[i]) == Some(items[i])
    requires |items| < |lines| ==> ParseGoalLine(lines[|items|]).None?
    ensures LoadGoalLines(lines) == Loaded(items, |items| == |lines|)
  {
    LoadLinesStopsAt(lines, ParseGoalLine, items);
  }

  /** One more parsable line extends a complete load of the lines before it. */
  lemma GoalLinesExtend(lines: seq<string>, i: nat, items: seq<GoalState>, x: GoalState)
    requires i < |lines| && LoadGoalLines(lines[..i]) == Loaded(items, true)
    requires ParseGoalLine(lines[i]) == Some(x)
    ensures LoadGoalLines(lines[..i + 1]) == Loaded(items + [x], true)
  {
    var next := lines[..i + 1];
    forall k | 0 <= k < i + 1 ensures ParseGoalLine(next[k]) == Some((items + [x])[k]) {
      if k < i {
        assert next[k] == lines[..i][k];
      }
    }
    GoalLinesStopAt(next, items + [x]);
  }

  /** A line that does not parse, after a complete load of the lines before it,
      ends the load of the whole file with those items. */
  lemma GoalLinesFailAt(lines: seq<string>, i: nat, items: seq<GoalState>)
    requires i < |lines| && LoadGoalLines(lines[..i]) == Loaded(items, true)
    requires ParseGoalLine(lines[i]).None?
    ensures LoadGoalLines(lines) == Loaded(items, false)
  {
    forall k | 0 <= k < i ensures ParseGoalLine(lines[k]) == Some(items[k]) {
      assert lines[k] == lines[..i][k];
    }
    GoalLinesStopAt(lines, items);
  }

  /** A goal whose fields are writable and readable in the format. */
  predicate Saveable(g: GoalState)
  {
    ',' !in g.name && IsInt32(g.value) && IsInt32(g.timesCompleted) && IsInt32(g.totalTimes)
  }

  /** What one saved goal whose name holds no comma (see `CommaInNameMisloads`
      for one that does) loads back as: nothing for a base, simple or eternal
      goal (three fields are too few); a checklist with one completion and the
      saved flag (or completed, if its target is 1) for a checklist with a positive
      target; a base goal for a checklist whose target is not positive. */
  lemma ReloadGoal(g: GoalState)
    requires Saveable(g)
    ensures g.variant != ChecklistGoal ==> ParseGoalLine(GoalInfo(g)).None?
    ensures g.variant == ChecklistGoal && g.totalTimes > 0 ==>
      ParseGoalLine(GoalInfo(g)) == Some(GoalState(ChecklistGoal, g.name, g.value, g.isCompleted || g.totalTimes <= 1, 1, g.totalTimes))
    ensures g.variant == ChecklistGoal && g.totalTimes <= 0 ==>
      ParseGoalLine(GoalInfo(g)) == Some(GoalState(BaseGoal, g.name, g.value, g.isCompleted, 0, 0))
  {
    if g.variant == ChecklistGoal {
      ParseIntToString(g.value);
      ParseIntToString(g.timesCompleted);
      ParseIntToString(g.totalTimes);
      ParseBoolToString(g.isCompleted);
    }
  }

  /** Saving and loading is no round trip. The load stops at the first goal that
      is not a checklist, so it completes exactly when every goal is a checklist;
      what it does load are checklists reset to one completion. */
  lemma {:induction false} SaveThenLoad(gs: seq<GoalState>)
    requires forall i | 0 <= i < |gs| :: Saveable(gs[i])
    ensures var r := LoadGoalLines(SaveLines(gs));
      && (r.complete <==> forall i | 0 <= i < |gs| :: gs[i].variant == ChecklistGoal)
      && forall i | 0 <= i < |r.items| ::
           && gs[i].variant == ChecklistGoal
           && r.items[i].name == gs[i].name && r.items[i].value == gs[i].value
           && r.items[i].timesCompleted == (if gs[i].totalTimes > 0 then 1 else 0)
  {
    var r := LoadGoalLines(SaveLines(gs));
    forall i | 0 <= i < |gs| ensures gs[i].variant != ChecklistGoal <==> ParseGoalLine(SaveLines(gs)[i]).None? {
      ReloadGoal(gs[i]);
    }
    forall i | 0 <= i < |r.items|
      ensures gs[i].variant == ChecklistGoal
      ensures r.items[i].name == gs[i].name && r.items[i].value == gs[i].value
      ensures r.items[i].timesCompleted == (if gs[i].totalTimes > 0 then 1 else 0)
    {
      ReloadGoal(gs[i]);
    }
  }

  /** A concrete checklist that does not survive a save and a load: two of five
      completions come back as one. */
  lemma ChecklistProgressIsLost()
    ensures var g := GoalState(ChecklistGoal, "Read", 10, false, 2, 5);
      LoadGoalLines(SaveLines([g])) == Loaded([g.(timesCompleted := 1)], true)
  {
    var g := GoalState(ChecklistGoal, "Read", 10, false, 2, 5);
    assert ',' !in g.name;
    ReloadGoal(g);
    LoadOneGoal(g, g.(timesCompleted := 1));
  }

  /** A file saved from one goal loads completely as what its line parses to. */
  lemma LoadOneGoal(g: GoalState, loaded: GoalState)
    requires ParseGoalLine(GoalInfo(g)) == Some(loaded)
    ensures LoadGoalLines(SaveLines([g])) == Loaded([loaded], true)
  {
    var lines := SaveLines([g]);
    assert lines == [GoalInfo(g)];
    GoalLinesStopAt(lines, [loaded]);
  }

  /** Names are written without escaping, so a comma in a name shifts the saved
      fields. A base, simple or eternal goal whose name is a comma-free head
      followed by three fields (value, flag, count) loads back as a checklist
      named by the head, with those fields and with its own value as the target,
      whenever that value is positive. */
  lemma CommaInNameMisloads(g: GoalState, head: string, value: int, isCompleted: bool, timesCompleted: int)
    requires g.variant != ChecklistGoal && g.value > 0 && IsInt32(g.value)
    requires ',' !in head && IsInt32(value) && IsInt32(timesCompleted)
    requires g.name == Join([head, IntToString(value), BoolToString(isCompleted), IntToString(timesCompleted)], ',')
    ensures ParseGoalLine(GoalInfo(g)) == Some(Rebuilt(head, value, isCompleted, g.value))
  {
    ShiftedFields(g, [head, IntToString(value), BoolToString(isCompleted), IntToString(timesCompleted)]);
    ParseIntToString(value);
    ParseBoolToString(isCompleted);
    ParseIntToString(timesCompleted);
    ParseIntToString(g.value);
    ParsedGoalLine(GoalInfo(g), value, isCompleted, timesCompleted, g.value);
  }

  /** A goal other than a checklist, whose name is comma-free pieces joined by
      commas, is saved as a line that splits into those pieces, then its value
      and its flag. */
  lemma ShiftedFields(g: GoalState, named: seq<string>)
    requires g.variant != ChecklistGoal && |named| >= 1
    requires forall i | 0 <= i < |named| :: ',' !in named[i]
    requires g.name == Join(named, ',')
    ensures Split(GoalInfo(g), ',') == named + [IntToString(g.value), BoolToString(g.isCompleted)]
  {
    var written, flag := IntToString(g.value), BoolToString(g.isCompleted);
    SavedLine(g);
    SplitJoin(named, ',');
    SavedTail(written, flag);
    SplitAppend(g.name, written + [','] + flag, ',');
  }

  /** A written value and flag after the name split back into those two. */
  lemma SavedTail(written: string, flag: string)
    requires forall i | 0 <= i < |written| :: IsDigit(written[i]) || written[i] == '-'
    requires forall i | 0 <= i < |flag| :: 'A' <= flag[i] <= 'z'
    ensures Split(written + [','] + flag, ',') == [written, flag]
  {
    SplitJoin([written], ',');
    SplitJoin([flag], ',');
    SplitAppend(written, flag, ',');
  }

  /** The line saved for a goal other than a checklist: name, value and flag. */
  lemma SavedLine(g: GoalState)
    requires g.variant != ChecklistGoal
    ensures GoalInfo(g) == g.name + [','] + (IntToString(g.value) + [','] + BoolToString(g.isCompleted))
  {
    var written, flag := IntToString(g.value), BoolToString(g.isCompleted);
    assert Join([written, flag], ',') == written + [','] + flag by {
      assert [written, flag][1..] == [flag];
    }
    assert Fields(g)[1..] == [written, flag];
  }

  /** An instance: the base goal "Run,1,True,0" worth 5 comes back as a completed
      checklist named "Run", worth 1, with one of five completions. */
  lemma CommaInNameExample()
    ensures ParseGoalLine(GoalInfo(GoalState(BaseGoal, "Run,1,True,0", 5, false, 0, 0)))
      == Some(GoalState(ChecklistGoal, "Run", 1, true, 1, 5))
  {
    var g := GoalState(BaseGoal, "Run,1,True,0", 5, false, 0, 0);
    assert IntToString(1) == "1" && IntToString(0) == "0" && BoolToString(true) == "True";
    assert Join(["0"], ',') == "0";
    assert Join(["True", "0"], ',') == "True,0";
    assert Join(["1", "True", "0"], ',') == "1,True,0";
    assert Join(["Run", "1", "True", "0"], ',') == "Run,1,True,0";
    CommaInNameMisloads(g, "Run", 1, true, 0);
  }

  /** A line whose first five fields parse loads as the goal `Rebuilt` from them. */
  lemma ParsedGoalLine(line: string, value: int, isCompleted: bool, timesCompleted: int, totalTimes: int)
    requires var parts := Split(line, ',');
      && |parts| >= 5 && ParseInt32(parts[1]) == Some(value) && ParseBool(parts[2]) == Some(isCompleted)
      && ParseInt32(parts[3]) == Some(timesCompleted) && ParseInt32(parts[4]) == Some(totalTimes)
    ensures ParseGoalLine(line) == Some(Rebuilt(Split(line, ',')[0], value, isCompleted, totalTimes))
  {
  }

  /** One pass of the loop in `LoadGoals`: split the line, parse its fields and
      build the goal; `null` where the C# code throws. */
  method LoadGoalLine(line: string) returns (goal: Goal?)
    ensures goal == null <==> ParseGoalLine(line).None?
    ensures goal != null ==> fresh(goal) && goal.State() == ParseGoalLine(line).value
  {
    var parts := Split(line, ',');
    if |parts| < 5 {
      return null;
    }
    var value, isCompleted := ParseInt32(parts[1]), ParseBool(parts[2]);
    var timesCompleted, totalTimes := ParseInt32(parts[3]), ParseInt32(parts[4]);
    if value.None? || isCompleted.None? || timesCompleted.None? || totalTimes.None? {
      return null;
    }
    if totalTimes.value > 0 {
      goal := new Goal.Checklist(parts[0], value.value, totalTimes.value);
      goal.isCompleted := isCompleted.value;
      goal.MarkComplete();
    } else {
      goal := new Goal.Base(parts[0], value.value);
      goal.isCompleted := isCompleted.value;
      if isCompleted.value {
        goal.MarkComplete();
      }
    }
  }

  // ---------------------------------------------------------------- the program object

  function States(gs: seq<Goal>): (r: seq<GoalState>)
    reads gs
    ensures |r| == |gs|
    ensures forall i | 0 <= i < |gs| :: r[i] == gs[i].State()
  {
    seq(|gs|, i requires 0 <= i < |gs| reads gs => gs[i].State())
  }

  class EternalQuestProgram {
    var goals: seq<Goal>
    var score: int

    /** Each goal object sits in the list once. */
    ghost predicate Valid()
      reads this
    {
      forall i, j | 0 <= i < j < |goals| :: goals[i] != goals[j]
    }

    function Snapshot(): seq<GoalState>
      reads this, goals
    {
      States(goals)
    }

    function Abstract(): Quest
      reads this, goals
    {
      Quest(Snapshot(), score)
    }

    constructor ()
      ensures Valid() && goals == [] && score == 0
    {
      goals, score := [], 0;
    }

    /** `AddGoal`: appends, keeping the goals before it, their order and the score. */
    method AddGoal(goal: Goal)
      requires Valid() && goal !in goals
      modifies this
      ensures Valid()
      ensures goals == old(goals) + [goal] && score == old(score)
      ensures Snapshot() == old(Snapshot()) + [goal.State()]
    {
      goals := goals + [goal];
    }

    /** `goals.Find(g => g.Name == goalName && !g.IsCompleted)`. */
    method Find(goalName: string) returns (goal: Goal?)
      ensures goal == null <==> FirstOpen(Snapshot(), goalName).None?
      ensures goal != null ==> goal == goals[FirstOpen(Snapshot(), goalName).value]
    {
      var i := 0;
      while i < |goals|
        invariant 0 <= i <= |goals|
        invariant forall j | 0 <= j < i :: !IsOpen(goals[j].State(), goalName)
      {
        if goals[i].name == goalName && !goals[i].isCompleted {
          var first := FirstOpen(Snapshot(), goalName);
          assert first.Some? && first.value == i by {
            assert IsOpen(Snapshot()[i], goalName);
          }
          return goals[i];
        }
        i := i + 1;
      }
      return null;
    }

    /** `RecordEvent`: marks the first open goal with that name and adds its value
        to the score; `found` is false where the source prints "Goal not found or
        already completed." and changes nothing. */
    method RecordEvent(goalName: string) returns (found: bool)
      requires Valid()
      modifies this, goals
      ensures Valid() && goals == old(goals)
      ensures Abstract() == Record(old(Abstract()), goalName)
      ensures found <==> FirstOpen(old(Snapshot()), goalName).Some?
    {
      ghost var before := Abstract();
      var goal := Find(goalName);
      if goal != null {
        ghost var i := FirstOpen(before.goals, goalName).value;
        goal.MarkComplete();
        score := score + goal.value;
        assert Snapshot() == before.goals[i := Marked(before.goals[i])] by {
          forall j | 0 <= j < |goals| ensures Snapshot()[j] == before.goals[i := Marked(before.goals[i])][j] {
            if j != i {
              assert goals[j] != goal;
            }
          }
        }
        found := true;
      } else {
        found := false;
      }
    }

    /** `ShowGoals`: one progress line per goal, in list order. */
    method ShowGoals() returns (lines: seq<string>)
      ensures |lines| == |goals|
      ensures forall i | 0 <= i < |goals| :: lines[i] == ProgressLine(Snapshot()[i])
    {
      lines := [];
      for i := 0 to |goals|
        invariant |lines| == i
        invariant forall k | 0 <= k < i :: lines[k] == ProgressLine(goals[k].State())
      {
        lines := lines + [ProgressLine(goals[i].State())];
      }
    }

    /** `SaveGoals`: the lines written to the file. */
    method SaveGoals() returns (lines: seq<string>)
      ensures lines == SaveLines(Snapshot())
    {
      lines := [];
      for i := 0 to |goals|
        invariant |lines| == i
        invariant forall k | 0 <= k < i :: lines[k] == GoalInfo(goals[k].State())
      {
        lines := lines + [GoalInfo(goals[i].State())];
      }
    }

    /** `LoadGoals`: clears the list, then adds one goal per line until a line
        does not parse (where the C# code throws, leaving what it has added so
        far); `complete` is false in that case. The score is not touched. */
    method LoadGoals(lines: seq<string>) returns (complete: bool)
      modifies this
      ensures Valid() && score == old(score)
      ensures forall g | g in goals :: fresh(g)
      ensures LoadGoalLines(lines) == Loaded(Snapshot(), complete)
    {
      goals := [];
      var i := 0;
      while i < |lines|
        invariant 0 <= i <= |lines|
        invariant Valid() && score == old(score)
        invariant forall g | g in goals :: fresh(g)
        invariant LoadGoalLines(lines[..i]) == Loaded(Snapshot(), true)
      {
        var goal := LoadGoalLine(lines[i]);
        if goal == null {
          GoalLinesFailAt(lines, i, Snapshot());
          return false;
        }
        ghost var before := Snapshot();
        AddGoal(goal);
        GoalLinesExtend(lines, i, before, goal.State());
        i := i + 1;
      }
      assert lines[..i] == lines;
      return true;
    }
  }
}
