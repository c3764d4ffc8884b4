/**
 * The connector exercise: one problem at a time, two clauses and a single
 * drop slot between them. The first connector dropped fills the slot, shows
 * the problem's explanation and is judged against the problem's list of
 * accepted connector ids; a wrong one is cleared by a timer three seconds
 * later. Next Problem cycles through the problems, and a change of problem
 * clears the slot, the feedback and the explanation.
 *
 * `Stage` is the component's state as a value, with the number of revert
 * timers still pending; the class `Connection` holds the same state in fields.
 */
module Connection {
  import opened Types
  import Problems
  import Catalog

  datatype Stage = Stage(
    problemIndex: nat,
    droppedConnector: Option<Connector>,
    feedback: Feedback,
    explanation: Option<string>,
    /** Revert timers scheduled and not yet fired; each does the same thing when it fires. */
    pending: nat)

  /**
   * The state the `[problemIndex]` effect leaves: an empty slot, neutral
   * feedback and no explanation on the given problem. Timers already
   * scheduled stay scheduled.
   */
  function Fresh(index: nat, pending: nat): (st: Stage)
    ensures st.problemIndex == index && st.pending == pending
    ensures st.droppedConnector.None? && st.feedback == Neutral && st.explanation.None?
  {
    Stage(index, None, Neutral, None, pending)
  }

  /** `correctConnectorIds.includes(connector.id)`. */
  function Accepted(problem: ConnectionProblem, connector: Connector): bool
  {
    connector.id in problem.correctConnectorIds
  }

  /** The slot's drop guard: a drop while a connector is shown changes nothing. */
  function Occupied(st: Stage): bool
  {
    st.droppedConnector.Some?
  }

  /**
   * `handleDrop`: on an empty slot the connector is shown, the problem's
   * explanation is shown whatever the verdict, the verdict is the membership
   * of the connector's id in the accepted list, and a wrong connector
   * schedules a revert.
   */
  function DropConnector(problems: seq<ConnectionProblem>, st: Stage, connector: Connector): Stage
    requires st.problemIndex < |problems|
  {
    if Occupied(st) then st
    else
      var problem := problems[st.problemIndex];
      var isCorrect := Accepted(problem, connector);
      st.(droppedConnector := Some(connector),
          explanation := Some(problem.explanation),
          feedback := FeedbackOf(isCorrect),
          pending := if isCorrect then st.pending else st.pending + 1)
  }

  /** A revert timer fires: the slot empties and the feedback turns neutral; the explanation stays. */
  function Fire(st: Stage): Stage
    requires st.pending > 0
  {
    st.(droppedConnector := None, feedback := Neutral, pending := st.pending - 1)
  }

  /** `resetProblem`: the slot, the feedback and the explanation are cleared; timers are not cancelled. */
  function Reset(st: Stage): Stage
  {
    Fresh(st.problemIndex, st.pending)
  }

  /**
   * `goToNextProblem`: the index moves on cyclically; when it changes, the
   * effect clears the problem's state. With a single problem the index stays
   * and React runs no effect, so nothing changes.
   */
  function NextProblem(n: nat, st: Stage): Stage
    requires st.problemIndex < n
  {
    var j := Problems.NextIndex(st.problemIndex, n);
    if j == st.problemIndex then st else Fresh(j, st.pending)
  }

  /**
   * Next Problem with the timers cancelled when the problem changes, as a
   * cleanup of the `[problemIndex]` effect would do.
   */
  function NextProblemCancellingReverts(n: nat, st: Stage): Stage
    requires st.problemIndex < n
  {
    var j := Problems.NextIndex(st.problemIndex, n);
    if j == st.problemIndex then st else Fresh(j, 0)
  }

  /** The connectors offered for the current problem. */
  function Toolbox(problems: seq<ConnectionProblem>, st: Stage): seq<Connector>
    requires st.problemIndex < |problems|
  {
    problems[st.problemIndex].allConnectors
  }

  /**
   * The slot and the feedback agree: the slot is empty exactly when the
   * feedback is neutral, and a shown connector comes with an explanation.
   */
  ghost predicate Consistent(n: nat, st: Stage)
  {
    && st.problemIndex < n
    && (st.droppedConnector.None? <==> st.feedback == Neutral)
    && (st.droppedConnector.Some? ==> st.explanation.Some?)
  }

  /** The only pending timer, if any, is the one the wrong connector on show scheduled. */
  ghost predicate LiveReverts(st: Stage)
  {
    st.pending == if st.feedback == Feedback.Incorrect then 1 else 0
  }

  /** The problem state on mount is fresh, consistent and has nothing pending. */
  lemma FreshConsistent(n: nat, index: nat)
    requires index < n
    ensures Consistent(n, Fresh(index, 0)) && LiveReverts(Fresh(index, 0))
  {
  }

  /**
   * A drop on an occupied slot changes nothing. On an empty slot it shows the
   * connector and the problem's explanation whether or not it is accepted,
   * the verdict is exactly the membership of its id in the accepted list, and
   * a timer is scheduled exactly when it is wrong.
   */
  lemma DropVerdict(problems: seq<ConnectionProblem>, st: Stage, connector: Connector)
    requires st.problemIndex < |problems|
    ensures Occupied(st) ==> DropConnector(problems, st, connector) == st
    ensures !Occupied(st) ==>
      var r := DropConnector(problems, st, connector);
      && r.droppedConnector == Some(connector)
      && r.explanation == Some(problems[st.problemIndex].explanation)
      && (r.feedback == Feedback.Correct <==> connector.id in problems[st.problemIndex].correctConnectorIds)
      && (r.feedback == Feedback.Incorrect <==> connector.id !in problems[st.problemIndex].correctConnectorIds)
      && (r.pending > st.pending <==> r.feedback == Feedback.Incorrect)
      && r.problemIndex == st.problemIndex
  {
  }

  /** A drop keeps the state consistent and the pending timer live. */
  lemma DropKeepsInvariant(problems: seq<ConnectionProblem>, st: Stage, connector: Connector)
    requires Consistent(|problems|, st) && LiveReverts(st)
    ensures Consistent(|problems|, DropConnector(problems, st, connector))
    ensures LiveReverts(DropConnector(problems, st, connector))
  {
  }

  /**
   * On a live state a firing timer takes back a wrong connector, never a
   * correct one, and keeps the explanation on show.
   */
  lemma FireClearsOnlyWrong(n: nat, st: Stage)
    requires Consistent(n, st) && LiveReverts(st) && st.pending > 0
    ensures st.feedback == Feedback.Incorrect
    ensures Fire(st).droppedConnector.None? && Fire(st).explanation == st.explanation
    ensures Consistent(n, Fire(st)) && LiveReverts(Fire(st))
  {
  }

  /** Reset clears the problem state, keeps the problem, and resetting twice is resetting once. */
  lemma ResetClears(n: nat, st: Stage)
    requires st.problemIndex < n
    ensures Reset(st).droppedConnector.None? && Reset(st).feedback == Neutral && Reset(st).explanation.None?
    ensures Reset(st).problemIndex == st.problemIndex && Reset(st).pending == st.pending
    ensures Consistent(n, Reset(st))
    ensures Reset(Reset(st)) == Reset(st)
  {
  }

  /**
   * Next Problem moves cyclically; with two problems or more it changes the
   * problem and clears its state, but keeps the timers scheduled.
   */
  lemma NextCycles(n: nat, st: Stage)
    requires 2 <= n && st.problemIndex < n
    ensures NextProblem(n, st).problemIndex == (st.problemIndex + 1) % n
    ensures NextProblem(n, st).problemIndex != st.problemIndex
    ensures NextProblem(n, st) == Fresh(Problems.NextIndex(st.problemIndex, n), st.pending)
    ensures Consistent(n, NextProblem(n, st))
  {
  }

  /**
   * The toolbox is the current problem's full list of connectors: a drop, a
   * firing timer or a reset on the same problem removes none of them.
   */
  lemma ToolboxKept(problems: seq<ConnectionProblem>, st: Stage, connector: Connector)
    requires st.problemIndex < |problems|
    ensures Toolbox(problems, st) == problems[st.problemIndex].allConnectors
    ensures Toolbox(problems, DropConnector(problems, st, connector)) == Toolbox(problems, st)
    ensures st.pending > 0 ==> Toolbox(problems, Fire(st)) == Toolbox(problems, st)
    ensures Toolbox(problems, Reset(st)) == Toolbox(problems, st)
  {
  }

  /** With a single problem Next Problem leaves everything as it is. */
  lemma NextOnSingleProblem(st: Stage)
    requires st.problemIndex < 1
    ensures NextProblem(1, st) == st
  {
  }

  /**
   * On the second catalog problem, ', but' and ', yet' are accepted and
   * '; however,' is not, though all three are in its toolbox.
   */
  lemma SecondProblemVerdicts()
    ensures var p := Catalog.ConnectionProblems[1];
            && Accepted(p, Catalog.But) && Accepted(p, Catalog.Yet) && !Accepted(p, Catalog.However)
            && Catalog.But in p.allConnectors && Catalog.Yet in p.allConnectors && Catalog.However in p.allConnectors
  {
    var p := Catalog.ConnectionProblems[1];
    assert p.correctConnectorIds == ["conn2", "conn11"];
    assert p.allConnectors[1] == Catalog.But && p.allConnectors[2] == Catalog.Yet && p.allConnectors[3] == Catalog.However;
  }

  /**
   * As written, Reset does not cancel a pending timer: a wrong connector,
   * Reset, then a right connector; when the first timer fires it clears the
   * right answer.
   */
  lemma StaleRevertClearsCorrect(problems: seq<ConnectionProblem>, index: nat, wrong: Connector, right: Connector)
    requires index < |problems|
    requires !Accepted(problems[index], wrong) && Accepted(problems[index], right)
    ensures var s1 := DropConnector(problems, Fresh(index, 0), wrong);
            var s2 := DropConnector(problems, Reset(s1), right);
            && s2.feedback == Feedback.Correct
            && s2.pending == 1
            && !LiveReverts(s2)
            && Fire(s2).feedback == Neutral && Fire(s2).droppedConnector.None?
  {
  }

  /**
   * As written, a change of problem does not cancel a pending timer either:
   * a wrong connector, Next Problem, then a right connector on the next
   * problem; when the first timer fires it clears that right answer.
   */
  lemma StaleRevertCrossesProblems(problems: seq<ConnectionProblem>, index: nat, wrong: Connector, right: Connector)
    requires 2 <= |problems| && index < |problems|
    requires !Accepted(problems[index], wrong)
    requires Accepted(problems[Problems.NextIndex(index, |problems|)], right)
    ensures var s1 := DropConnector(problems, Fresh(index, 0), wrong);
            var s2 := DropConnector(problems, NextProblem(|problems|, s1), right);
            && s1.pending == 1 && !LiveReverts(NextProblem(|problems|, s1))
            && s2.problemIndex == Problems.NextIndex(index, |problems|)
            && s2.feedback == Feedback.Correct
            && Fire(s2).feedback == Neutral && Fire(s2).droppedConnector.None?
  {
  }

  /**
   * Next Problem that cancels the timers when the problem changes keeps a
   * consistent, live state live, on the same problem Next Problem selects.
   */
  lemma CancellingNextKeepsLive(n: nat, st: Stage)
    requires Consistent(n, st) && LiveReverts(st)
    ensures NextProblemCancellingReverts(n, st).problemIndex == NextProblem(n, st).problemIndex
    ensures Consistent(n, NextProblemCancellingReverts(n, st)) && LiveReverts(NextProblemCancellingReverts(n, st))
    ensures 2 <= n ==> NextProblemCancellingReverts(n, st).pending == 0
  {
  }

  /** A reset that cancels the pending timer keeps the state live, so no correct answer is cleared. */
  lemma CancellingResetKeepsLive(n: nat, st: Stage)
    requires st.problemIndex < n
    ensures Consistent(n, Reset(st).(pending := 0)) && LiveReverts(Reset(st).(pending := 0))
  {
  }

  class Connection {
    const problems: seq<ConnectionProblem>
    var problemIndex: nat
    var droppedConnector: Option<Connector>
    var feedback: Feedback
    var explanation: Option<string>
    /** Revert timers scheduled and not yet fired. */
    var pending: nat
    ghost var sounds: seq<Sound>

    function State(): Stage
      reads this
    {
      Stage(problemIndex, droppedConnector, feedback, explanation, pending)
    }

    /** Mounting the component: the first problem, fresh. */
    constructor (problems: seq<ConnectionProblem>)
      requires problems != []
      ensures this.problems == problems
      ensures State() == Fresh(0, 0)
      ensures sounds == []
    {
      this.problems := problems;
      problemIndex := 0;
      droppedConnector := None;
      feedback := Neutral;
      explanation := None;
      pending := 0;
      sounds := [];
    }

    /** `handleDrop`: ignored while the slot is filled; otherwise the drop cue and the verdict cue. */
    method HandleDrop(connector: Connector)
      requires problemIndex < |problems|
      modifies this
      ensures State() == DropConnector(problems, old(State()), connector)
      ensures sounds == if Occupied(old(State())) then old(sounds)
        else old(sounds) + [Sound.Drop, CueOf(Accepted(problems[problemIndex], connector))]
    {
      if droppedConnector.Some? {
        return;
      }
      sounds := sounds + [Sound.Drop];
      var currentProblem := problems[problemIndex];
      droppedConnector := Some(connector);
      explanation := Some(currentProblem.explanation);
      var isCorrect := connector.id in currentProblem.correctConnectorIds;
      if isCorrect {
        feedback := Feedback.Correct;
        sounds := sounds + [Sound.Correct];
      } else {
        feedback := Feedback.Incorrect;
        sounds := sounds + [Sound.Incorrect];
        pending := pending + 1;
      }
    }

    /** A pending revert timer fires. */
    method RevertFires()
      requires pending > 0
      modifies this
      ensures State() == Fire(old(State()))
      ensures sounds == old(sounds)
    {
      droppedConnector := None;
      feedback := Neutral;
      pending := pending - 1;
    }

    /** `goToNextProblem`, followed by the `[problemIndex]` effect when the index changed. */
    method GoToNextProblem()
      requires problemIndex < |problems|
      modifies this
      ensures State() == NextProblem(|problems|, old(State()))
      ensures problemIndex < |problems|
      ensures sounds == old(sounds)
    {
      var next := (problemIndex + 1) % |problems|;
      if next != problemIndex {
        problemIndex := next;
        droppedConnector := None;
        feedback := Neutral;
        explanation := None;
      }
    }

    /** Next Problem whose effect cancels the pending timers when the problem changes. */
    method GoToNextProblemCancellingReverts()
      requires problemIndex < |problems|
      modifies this
      ensures State() == NextProblemCancellingReverts(|problems|, old(State()))
      ensures problemIndex < |problems|
      ensures sounds == old(sounds)
    {
      var next := (problemIndex + 1) % |problems|;
      if next != problemIndex {
        pending := 0;
        GoToNextProblem();
      }
    }

    /** `resetProblem`, as written: a pending timer stays scheduled. */
    method ResetProblem()
      modifies this
      ensures State() == Reset(old(State()))
      ensures sounds == old(sounds)
    {
      droppedConnector := None;
      feedback := Neutral;
      explanation := None;
    }

    /** Reset that first cancels the pending timers. */
    method ResetProblemCancellingReverts()
      modifies this
      ensures State() == Reset(old(State())).(pending := 0)
      ensures sounds == old(sounds)
    {
      pending := 0;
      ResetProblem();
    }
  }

  /**
   * The stale timer on the component with the catalog problems: on the
   * second problem, '; however,' (wrong), Reset, ', but' (right); the timer
   * fires and the right answer is gone.
   */
  method StaleRevertScenario() returns (before: Feedback, after: Feedback, shown: bool)
    ensures before == Feedback.Correct && after == Neutral && !shown
  {
    SecondProblemVerdicts();
    var m := new Connection(Catalog.ConnectionProblems);
    m.GoToNextProblem();
    m.HandleDrop(Catalog.However);
    m.ResetProblem();
    m.HandleDrop(Catalog.But);
    before := m.feedback;
    m.RevertFires();
    after := m.feedback;
    shown := m.droppedConnector.Some?;
  }

  /** The same steps with the cancelling reset keep ', but' on show. */
  method CancellingResetScenario() returns (after: Feedback, pending: nat)
    ensures after == Feedback.Correct && pending == 0
  {
    SecondProblemVerdicts();
    var m := new Connection(Catalog.ConnectionProblems);
    m.GoToNextProblem();
    m.HandleDrop(Catalog.However);
    m.ResetProblemCancellingReverts();
    m.HandleDrop(Catalog.But);
    after := m.feedback;
    pending := m.pending;
  }

  /**
   * The stale timer across a change of problem: on the first problem ', but'
   * (wrong), Next Problem, ', but' again (right on the second problem); the
   * timer fires and the right answer is gone.
   */
  method StaleRevertAcrossNextScenario() returns (before: Feedback, after: Feedback, shown: bool)
    ensures before == Feedback.Correct && after == Neutral && !shown
  {
    SecondProblemVerdicts();
    assert !Accepted(Catalog.ConnectionProblems[0], Catalog.But);
    var m := new Connection(Catalog.ConnectionProblems);
    m.HandleDrop(Catalog.But);
    m.GoToNextProblem();
    m.HandleDrop(Catalog.But);
    before := m.feedback;
    m.RevertFires();
    after := m.feedback;
    shown := m.droppedConnector.Some?;
  }

  /** The same steps with the cancelling Next Problem keep ', but' on show. */
  method CancellingNextScenario() returns (after: Feedback, pending: nat)
    ensures after == Feedback.Correct && pending == 0
  {
    SecondProblemVerdicts();
    var m := new Connection(Catalog.ConnectionProblems);
    m.HandleDrop(Catalog.But);
    m.GoToNextProblemCancellingReverts();
    m.HandleDrop(Catalog.But);
    after := m.feedback;
    pending := m.pending;
  }
}
