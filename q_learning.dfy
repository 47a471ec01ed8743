/**
 * The tabular Q-learning agent: a Q-table from observed states to the
 * values of the actions registered in them, the registration order of
 * those actions, the previous state and action, and an exploration rate
 * that falls linearly from 1 to 0 over the planned number of training
 * episodes. The pure functions below say what one observation and one
 * choice do to the tables; the class is proved to follow them.
 */
module QLearningAgent {
  import opened Optional
  import opened Board
  import opened Chance
  import opened ActionRanking
  import opened Interpreter

  /** An encoded board, as the interpreter produces it. */
  type State = seq<int>

  type QTable = map<State, Values>

  const InitQValue: real := 0.0
  const LearningRate: real := 0.3
  const Gamma: real := 0.9

  // ---------------------------------------------------------------------
  // The Bellman update

  /**
   * The learning-rate blend of the old value and reward + gamma * next:
   * the distance to that target shrinks to (1 - learning rate) of what it was.
   */
  function Bellman(current: real, reward: real, next: real): (r: real)
    ensures r - (reward + Gamma * next) == (1.0 - LearningRate) * (current - (reward + Gamma * next))
  {
    (1.0 - LearningRate) * current + LearningRate * (reward + Gamma * next)
  }

  /** Rewards in [-1, 1] keep every value within [-10, 10] = +-1 / (1 - gamma). */
  lemma BellmanBounded(current: real, reward: real, next: real)
    requires -10.0 <= current <= 10.0 && -10.0 <= next <= 10.0 && -1.0 <= reward <= 1.0
    ensures -10.0 <= Bellman(current, reward, next) <= 10.0
  {
  }

  // ---------------------------------------------------------------------
  // The two tables

  /** The values of a state are exactly those of its registered actions, registered once each. */
  predicate Agree(q: Values, known: seq<Action>)
  {
    NoDuplicates(known) && Known(q, known) && forall a :: a in q ==> a in known
  }

  lemma AgreeMember(q: Values, known: seq<Action>, a: Action)
    requires Agree(q, known) && a in known
    ensures a in q
  {
    var k :| 0 <= k < |known| && known[k] == a;
  }

  /** Both tables have the same states, and agree on each. */
  predicate TablesAgree(q: QTable, sa: map<State, seq<Action>>)
  {
    q.Keys == sa.Keys && forall s {:trigger Agree(q[s], sa[s])} :: s in sa ==> Agree(q[s], sa[s])
  }

  /** The previous action, when there is one, has a value in the previous state. */
  predicate PreviousKnown(q: QTable, previousState: Option<State>, previousAction: Option<Action>)
  {
    && (previousAction.Some? ==> previousState.Some?)
    && (previousState.Some? ==> previousState.value in q)
    && (previousAction.Some? ==> previousAction.value in q[previousState.value])
  }

  /** Every value in the table lies within [-10, 10]. */
  predicate Bounded(q: QTable)
  {
    forall s, a :: s in q && a in q[s] ==> -10.0 <= q[s][a] <= 10.0
  }

  /** The values of one state together with its actions in registration order. */
  datatype Row = Row(values: Values, known: seq<Action>)

  /**
   * The row after `actions` are offered in order: each action not yet
   * registered is appended and starts at the initial value.
   */
  function Registered(row: Row, actions: seq<Action>): Row
  {
    if actions == [] then row
    else Register(Registered(row, actions[..|actions| - 1]), actions[|actions| - 1])
  }

  /** One offered action: appended at the initial value unless already registered. */
  function Register(r: Row, a: Action): Row
  {
    if a in r.known then r else Row(r.values[a := InitQValue], r.known + [a])
  }

  /** One registration step keeps the row in agreement, extends it and keeps its values. */
  lemma RegisterStep(r: Row, a: Action)
    requires Agree(r.values, r.known)
    ensures Agree(Register(r, a).values, Register(r, a).known)
    ensures forall b :: b in Register(r, a).known <==> b in r.known || b == a
    ensures |r.known| <= |Register(r, a).known| && Register(r, a).known[..|r.known|] == r.known
    ensures forall b :: b in r.values ==> b in Register(r, a).values && Register(r, a).values[b] == r.values[b]
    ensures forall b :: b in Register(r, a).values && b !in r.values ==> Register(r, a).values[b] == InitQValue
  {
    if a !in r.known {
      var known := r.known + [a];
      assert known[..|r.known|] == r.known;
      assert forall k :: 0 <= k < |r.known| ==> known[k] == r.known[k];
    }
  }

  /** Registration keeps a row in agreement. */
  lemma {:induction false} RegisteredKeepsAgreement(row: Row, actions: seq<Action>)
    requires Agree(row.values, row.known)
    ensures Agree(Registered(row, actions).values, Registered(row, actions).known)
    decreases |actions|
  {
    if actions != [] {
      var init := actions[..|actions| - 1];
      RegisteredKeepsAgreement(row, init);
      RegisterStep(Registered(row, init), actions[|actions| - 1]);
    }
  }

  /** Afterwards the registered actions are the old ones and the offered ones. */
  lemma {:induction false} RegisteredMembers(row: Row, actions: seq<Action>)
    requires Agree(row.values, row.known)
    ensures forall a :: a in Registered(row, actions).known <==> a in row.known || a in actions
    decreases |actions|
  {
    if actions != [] {
      var init, a := actions[..|actions| - 1], actions[|actions| - 1];
      RegisteredMembers(row, init);
      RegisteredKeepsAgreement(row, init);
      RegisterStep(Registered(row, init), a);
      assert actions == init + [a];
      assert forall b :: b in actions <==> b in init || b == a;
    }
  }

  /** The old registration order is a prefix of the new one. */
  lemma {:induction false} RegisteredPrefix(row: Row, actions: seq<Action>)
    requires Agree(row.values, row.known)
    ensures |row.known| <= |Registered(row, actions).known|
    ensures Registered(row, actions).known[..|row.known|] == row.known
    decreases |actions|
  {
    if actions != [] {
      var init := actions[..|actions| - 1];
      var r := Registered(row, init);
      RegisteredPrefix(row, init);
      RegisteredKeepsAgreement(row, init);
      RegisterStep(r, actions[|actions| - 1]);
      var r' := Register(r, actions[|actions| - 1]);
      assert r'.known[..|row.known|] == r'.known[..|r.known|][..|row.known|];
    }
  }

  /** Old values are kept and newly registered actions start at the initial value. */
  lemma {:induction false} RegisteredValues(row: Row, actions: seq<Action>)
    requires Agree(row.values, row.known)
    ensures forall a :: a in row.values ==> a in Registered(row, actions).values
    ensures forall a :: a in row.values ==> Registered(row, actions).values[a] == row.values[a]
    ensures forall a :: a in Registered(row, actions).values && a !in row.values ==>
              Registered(row, actions).values[a] == InitQValue
    decreases |actions|
  {
    if actions != [] {
      var init := actions[..|actions| - 1];
      RegisteredValues(row, init);
      RegisteredKeepsAgreement(row, init);
      RegisterStep(Registered(row, init), actions[|actions| - 1]);
    }
  }

  /**
   * Registering actions in state `s` keeps the tables in agreement and the
   * previous action known.
   */
  lemma RegisterKeepsTables(q: QTable, sa: map<State, seq<Action>>, s: State, actions: seq<Action>,
                            previousState: Option<State>, previousAction: Option<Action>)
    requires TablesAgree(q, sa) && s in sa && PreviousKnown(q, previousState, previousAction)
    ensures var r := Registered(Row(q[s], sa[s]), actions);
            TablesAgree(q[s := r.values], sa[s := r.known]) && PreviousKnown(q[s := r.values], previousState, previousAction)
  {
    RegisteredKeepsAgreement(Row(q[s], sa[s]), actions);
    RegisteredValues(Row(q[s], sa[s]), actions);
  }

  /** A state seen for the first time gets an empty row. */
  function WithState(q: QTable, s: State): (r: QTable)
    ensures r.Keys == q.Keys + {s}
    ensures forall t :: t in q ==> r[t] == q[t]
    ensures s !in q ==> r[s] == map[]
  {
    if s in q then q else q[s := map[]]
  }

  function WithStateActions(sa: map<State, seq<Action>>, s: State): (r: map<State, seq<Action>>)
    ensures r.Keys == sa.Keys + {s}
    ensures forall t :: t in sa ==> r[t] == sa[t]
    ensures s !in sa ==> r[s] == []
  {
    if s in sa then sa else sa[s := []]
  }

  lemma WithStateAgrees(q: QTable, sa: map<State, seq<Action>>, s: State)
    requires TablesAgree(q, sa)
    ensures TablesAgree(WithState(q, s), WithStateActions(sa, s))
  {
    if s !in sa {
      assert Agree(map[], []);
    }
  }

  /**
   * The table after an observation `env` has been added. When actions are
   * registered in the observed state and a previous state and action exist,
   * the previous value is moved by the Bellman update toward the reward
   * plus gamma times the value of the observed state's first ranked action;
   * otherwise, when the observation is terminal and a previous action
   * exists, the previous value becomes the reward; otherwise nothing
   * changes. A terminal observation needs a previous state, which the
   * source looks up unguarded.
   */
  function Updated(q: QTable, sa: map<State, seq<Action>>, previousState: Option<State>,
                   previousAction: Option<Action>, env: Observation): (r: QTable)
    requires TablesAgree(q, sa) && env.state in sa
    requires PreviousKnown(q, previousState, previousAction)
    requires env.isTerminal ==> previousState.Some?
    ensures r.Keys == q.Keys
    ensures forall s :: s in q ==> r[s].Keys == q[s].Keys
  {
    if |sa[env.state]| > 0 && previousState.Some? && previousAction.Some? then
      var ps, pa := previousState.value, previousAction.value;
      assert Agree(q[env.state], sa[env.state]);
      var next := q[env.state][Ranked(q[env.state], sa[env.state])[0]];
      q[ps := q[ps][pa := Bellman(q[ps][pa], env.reward, next)]]
    else if env.isTerminal && previousAction.Some? then
      var ps, pa := previousState.value, previousAction.value;
      q[ps := q[ps][pa := env.reward]]
    else q
  }

  /**
   * Without the Bellman update, a terminal observation writes its reward as
   * the previous value, and any other observation changes nothing.
   */
  lemma UpdatedFallback(q: QTable, sa: map<State, seq<Action>>, previousState: Option<State>,
                        previousAction: Option<Action>, env: Observation)
    requires TablesAgree(q, sa) && env.state in sa
    requires PreviousKnown(q, previousState, previousAction)
    requires env.isTerminal ==> previousState.Some?
    requires !(|sa[env.state]| > 0 && previousState.Some? && previousAction.Some?)
    ensures var r := Updated(q, sa, previousState, previousAction, env);
            env.isTerminal && previousAction.Some? ==> r[previousState.value][previousAction.value] == env.reward
    ensures !(env.isTerminal && previousAction.Some?) ==> Updated(q, sa, previousState, previousAction, env) == q
  {
  }

  /** The update changes no value but that of the previous state and action. */
  lemma UpdatedFrame(q: QTable, sa: map<State, seq<Action>>, previousState: Option<State>,
                     previousAction: Option<Action>, env: Observation)
    requires TablesAgree(q, sa) && env.state in sa
    requires PreviousKnown(q, previousState, previousAction)
    requires env.isTerminal ==> previousState.Some?
    ensures var r := Updated(q, sa, previousState, previousAction, env);
            forall s, a :: s in q && a in q[s] && (Some(s), Some(a)) != (previousState, previousAction) ==> r[s][a] == q[s][a]
  {
  }

  /**
   * The table after observing `env`: its state added when new, then the
   * update applied.
   */
  function Observed(q: QTable, sa: map<State, seq<Action>>, previousState: Option<State>,
                    previousAction: Option<Action>, env: Observation): (r: QTable)
    requires TablesAgree(q, sa)
    requires PreviousKnown(q, previousState, previousAction)
    requires env.isTerminal ==> previousState.Some?
    ensures r.Keys == q.Keys + {env.state}
    ensures forall t :: t in q ==> r[t].Keys == q[t].Keys
    ensures TablesAgree(r, WithStateActions(sa, env.state))
    ensures PreviousKnown(r, previousState, previousAction)
  {
    var q1, sa1 := WithState(q, env.state), WithStateActions(sa, env.state);
    WithStateAgrees(q, sa, env.state);
    UpdatedAgrees(q1, sa1, previousState, previousAction, env);
    Updated(q1, sa1, previousState, previousAction, env)
  }

  /** The update reads the highest value registered in the observed state. */
  lemma UpdatedUsesTop(q: QTable, sa: map<State, seq<Action>>, ps: State, pa: Action, env: Observation)
    requires TablesAgree(q, sa) && env.state in sa && |sa[env.state]| > 0
    requires Agree(q[env.state], sa[env.state]) && PreviousKnown(q, Some(ps), Some(pa))
    ensures Updated(q, sa, Some(ps), Some(pa), env)[ps][pa] ==
            Bellman(q[ps][pa], env.reward, Top(q[env.state], sa[env.state]))
  {
    RankedFirst(q[env.state], sa[env.state]);
  }

  /** The update keeps the tables in agreement. */
  lemma UpdatedAgrees(q: QTable, sa: map<State, seq<Action>>, previousState: Option<State>,
                      previousAction: Option<Action>, env: Observation)
    requires TablesAgree(q, sa) && env.state in sa
    requires PreviousKnown(q, previousState, previousAction)
    requires env.isTerminal ==> previousState.Some?
    ensures TablesAgree(Updated(q, sa, previousState, previousAction, env), sa)
  {
    var r := Updated(q, sa, previousState, previousAction, env);
    forall s | s in sa ensures Agree(r[s], sa[s]) {
      assert Agree(q[s], sa[s]);
      forall a ensures a in r[s] <==> a in sa[s] {
        assert a in r[s] <==> a in q[s];
      }
    }
  }

  /**
   * With rewards in [-1, 1], a table whose values lie within [-10, 10]
   * keeps them there through an update.
   */
  lemma UpdatedBounded(q: QTable, sa: map<State, seq<Action>>, previousState: Option<State>,
                       previousAction: Option<Action>, env: Observation)
    requires TablesAgree(q, sa) && env.state in sa
    requires PreviousKnown(q, previousState, previousAction)
    requires env.isTerminal ==> previousState.Some?
    requires Bounded(q) && -1.0 <= env.reward <= 1.0
    ensures Bounded(Updated(q, sa, previousState, previousAction, env))
  {
    var r := Updated(q, sa, previousState, previousAction, env);
    UpdatedFrame(q, sa, previousState, previousAction, env);
    if |sa[env.state]| > 0 && previousState.Some? && previousAction.Some? {
      var ps, pa := previousState.value, previousAction.value;
      assert Agree(q[env.state], sa[env.state]);
      UpdatedUsesTop(q, sa, ps, pa, env);
      var top := Top(q[env.state], sa[env.state]);
      var k :| 0 <= k < |sa[env.state]| && q[env.state][sa[env.state][k]] == top;
      BellmanBounded(q[ps][pa], env.reward, top);
    }
    forall s, a | s in r && a in r[s] ensures -10.0 <= r[s][a] <= 10.0 {
      if (Some(s), Some(a)) != (previousState, previousAction) {
        assert r[s][a] == q[s][a];
      }
    }
  }

  // ---------------------------------------------------------------------
  // Exploration

  /** One observation's effect on the exploration rate: a terminal one lowers it while it is above 0. */
  function Decay(epsilon: real, decay: real, terminal: bool): (r: real)
    ensures terminal && epsilon > 0.0 ==> r == epsilon - decay
    ensures !(terminal && epsilon > 0.0) ==> r == epsilon
  {
    if terminal && epsilon > 0.0 then epsilon - decay else epsilon
  }

  /** The exploration rate after `k` terminal observations, starting from 1. */
  function AfterEpisodes(decay: real, k: nat): real
  {
    if k == 0 then 1.0 else Decay(AfterEpisodes(decay, k - 1), decay, true)
  }

  /**
   * With a decay of 1 / n, the rate after k episodes is 1 - k / n until it
   * reaches 0 after n episodes, and stays at 0 from then on.
   */
  lemma {:induction false} Schedule(n: nat, k: nat)
    requires n > 0
    ensures AfterEpisodes(1.0 / n as real, k) == if k <= n then 1.0 - k as real / n as real else 0.0
  {
    if k > 0 {
      Schedule(n, k - 1);
      if k - 1 < n {
        FractionBelow(k - 1, n);
        FractionStep(k - 1, n);
      } else {
        FractionWhole(n);
      }
    }
  }

  /** The exploration rate stays within [0, 1]. */
  lemma ScheduleBounds(n: nat, k: nat)
    requires n > 0
    ensures 0.0 <= AfterEpisodes(1.0 / n as real, k) <= 1.0
  {
    Schedule(n, k);
    if k <= n {
      FractionBelow(k, n);
    }
  }

  lemma FractionBelow(k: nat, n: nat)
    requires 0 < n
    ensures k < n ==> k as real / n as real < 1.0
    ensures k <= n ==> 0.0 <= k as real / n as real <= 1.0
  {
    var x := k as real / n as real;
    assert x * n as real == k as real;
  }

  lemma FractionStep(k: nat, n: nat)
    requires 0 < n
    ensures k as real / n as real + 1.0 / n as real == (k + 1) as real / n as real
  {
  }

  lemma FractionWhole(n: nat)
    requires 0 < n
    ensures 1.0 - n as real / n as real == 0.0
  {
  }

  /**
   * What the exploit step returns: a draw among the legal registered
   * actions of the highest value, or nothing when none of them is legal.
   */
  function BestChoice(q: Values, known: seq<Action>, actions: seq<Action>, roll: real): Option<Action>
    requires Known(q, known) && |known| > 0 && IsRoll(roll)
  {
    var c := Candidates(q, known, actions);
    if |c| > 0 then Some(c[Pick(|c|, roll)]) else None
  }

  /**
   * The exploit step draws a legal registered action of the highest value,
   * and draws nothing exactly when no such action is legal.
   */
  lemma BestChoiceSpec(q: Values, known: seq<Action>, actions: seq<Action>, roll: real)
    requires Known(q, known) && |known| > 0 && IsRoll(roll)
    ensures var r := BestChoice(q, known, actions, roll);
            r.Some? ==> r.value in actions && r.value in known && q[r.value] == Top(q, known)
    ensures BestChoice(q, known, actions, roll).None? <==>
            forall a :: a in known && a in actions ==> q[a] != Top(q, known)
  {
    CandidatesAreBestLegal(q, known, actions);
    var c := Candidates(q, known, actions);
    if |c| > 0 {
      assert c[Pick(|c|, roll)] in c;
    }
  }

  lemma BestChoiceLegal(q: Values, known: seq<Action>, actions: seq<Action>, roll: real)
    requires Known(q, known) && |known| > 0 && IsRoll(roll)
    ensures BestChoice(q, known, actions, roll).Some? ==> BestChoice(q, known, actions, roll).value in actions
  {
    BestChoiceSpec(q, known, actions, roll);
  }

  /** Every legal registered action of the highest value can be the one drawn. */
  lemma BestChoiceCovers(q: Values, known: seq<Action>, actions: seq<Action>, a: Action)
    requires Known(q, known) && |known| > 0
    requires a in known && a in actions && q[a] == Top(q, known)
    ensures exists roll :: IsRoll(roll) && BestChoice(q, known, actions, roll) == Some(a)
  {
    CandidatesAreBestLegal(q, known, actions);
    var c := Candidates(q, known, actions);
    var k :| 0 <= k < |c| && c[k] == a;
    PickCovers(|c|, k);
    var roll := k as real / |c| as real;
    assert BestChoice(q, known, actions, roll) == Some(a);
  }

  // ---------------------------------------------------------------------
  // The agent

  class QLearning {
    var qTable: QTable
    /** The actions of each state in the order they were first offered. */
    var stateActions: map<State, seq<Action>>
    var previousAction: Option<Action>
    var currentState: Option<State>
    var previousState: Option<State>
    var epsilon: real
    const epsilonDecay: real
    /** How many terminal observations the agent has seen. */
    ghost var episodes: nat

    ghost predicate Valid()
      reads this
    {
      && TablesAgree(qTable, stateActions)
      && (currentState.Some? ==> currentState.value in stateActions)
      && PreviousKnown(qTable, previousState, previousAction)
      && epsilonDecay > 0.0
      && epsilon == AfterEpisodes(epsilonDecay, episodes)
    }

    /** An empty agent that explores on every choice at first. */
    constructor (trainingAmount: nat)
      requires trainingAmount > 0
      ensures Valid()
      ensures qTable == map[] && stateActions == map[]
      ensures previousAction == None && currentState == None && previousState == None
      ensures epsilon == 1.0 && epsilonDecay == 1.0 / trainingAmount as real
    {
      qTable := map[];
      stateActions := map[];
      previousAction := None;
      currentState := None;
      previousState := None;
      epsilon := 1.0;
      epsilonDecay := 1.0 / trainingAmount as real;
      episodes := 0;
    }

    /** Forgets the previous state and action; the tables and the rate stay. */
    method PrepareForEpisode()
      requires Valid()
      modifies this`previousAction, this`previousState
      ensures Valid()
      ensures previousAction == None && previousState == None
    {
      previousAction := None;
      previousState := None;
    }

    /**
     * Records `env`: adds its state when new, updates the previous value,
     * makes the state current and, on a terminal observation, lowers the
     * exploration rate by 1 / training amount while it is above 0.
     */
    method ObserveEnvironment(env: Observation)
      requires Valid()
      requires env.isTerminal ==> previousState.Some?
      modifies this
      ensures Valid()
      ensures stateActions == WithStateActions(old(stateActions), env.state)
      ensures qTable == Observed(old(qTable), old(stateActions), old(previousState), old(previousAction), env)
      ensures currentState == Some(env.state)
      ensures previousState == old(previousState) && previousAction == old(previousAction)
      ensures epsilon == Decay(old(epsilon), epsilonDecay, env.isTerminal)
      ensures episodes == old(episodes) + if env.isTerminal then 1 else 0
    {
      ghost var q0, sa0 := qTable, stateActions;
      if env.state !in stateActions {
        AddStateToQTable(env.state);
        stateActions := stateActions[env.state := []];
      }
      assert qTable == WithState(q0, env.state) && stateActions == WithStateActions(sa0, env.state);
      WithStateAgrees(q0, sa0, env.state);
      UpdateQTable(env);
      assert qTable == Observed(q0, sa0, previousState, previousAction, env);
      currentState := Some(env.state);
      DecayEpsilon(env.isTerminal);
    }

    /** A terminal observation lowers the exploration rate by the decay while it is above 0. */
    method DecayEpsilon(terminal: bool)
      requires epsilon == AfterEpisodes(epsilonDecay, episodes)
      modifies this`epsilon, this`episodes
      ensures epsilon == Decay(old(epsilon), epsilonDecay, terminal)
      ensures episodes == old(episodes) + if terminal then 1 else 0
      ensures epsilon == AfterEpisodes(epsilonDecay, episodes)
    {
      if terminal && epsilon > 0.0 {
        epsilon := epsilon - epsilonDecay;
      }
      if terminal {
        episodes := episodes + 1;
      }
    }

    /**
     * Registers the unseen legal actions in the current state at the
     * initial value, then explores (a uniform draw among `actions`) when
     * `explore` falls below the exploration rate and exploits otherwise,
     * and remembers the current state and the choice as the previous ones.
     */
    method ChooseAction(actions: seq<Action>, explore: real, pick: real) returns (action: Option<Action>)
      requires Valid() && currentState.Some? && IsRoll(explore) && IsRoll(pick)
      requires explore < epsilon ==> |actions| > 0
      requires |actions| > 0 || |stateActions[currentState.value]| > 0
      modifies this`qTable, this`stateActions, this`previousState, this`previousAction
      ensures Valid()
      ensures var s := currentState.value;
              var r := Registered(Row(old(qTable)[s], old(stateActions)[s]), actions);
              stateActions == old(stateActions)[s := r.known] && qTable == old(qTable)[s := r.values]
      ensures action.Some? ==> action.value in actions
      ensures explore < epsilon ==> action == Some(actions[Pick(|actions|, pick)])
      ensures Known(qTable[currentState.value], stateActions[currentState.value])
      ensures |stateActions[currentState.value]| > 0
      ensures explore >= epsilon ==>
                action == BestChoice(qTable[currentState.value], stateActions[currentState.value], actions, pick)
      ensures previousState == currentState && previousAction == action
    {
      var s := currentState.value;
      RegisterActions(actions);
      assert s in qTable && Agree(qTable[s], stateActions[s]);
      assert |stateActions[s]| > 0 by {
        if |actions| > 0 {
          assert actions[0] in stateActions[s];
        }
      }
      action := Decide(actions, explore, pick);
      Remember(action);
    }

    /** The current state and the choice become the previous ones. */
    method Remember(action: Option<Action>)
      requires Valid() && currentState.Some?
      requires action.Some? ==> action.value in qTable[currentState.value]
      modifies this`previousState, this`previousAction
      ensures Valid()
      ensures previousState == currentState && previousAction == action
    {
      previousState := currentState;
      previousAction := action;
    }

    /**
     * Explores (a uniform draw among `actions`) when `explore` falls below
     * the exploration rate, exploits otherwise; the choice is always a
     * legal action with a value in the current state.
     */
    method Decide(actions: seq<Action>, explore: real, pick: real) returns (action: Option<Action>)
      requires IsRoll(explore) && IsRoll(pick) && currentState.Some?
      requires currentState.value in qTable && currentState.value in stateActions
      requires Agree(qTable[currentState.value], stateActions[currentState.value])
      requires explore < epsilon ==> |actions| > 0
      requires explore >= epsilon ==> |stateActions[currentState.value]| > 0
      requires forall a :: a in actions ==> a in stateActions[currentState.value]
      ensures action.Some? ==> action.value in actions && action.value in qTable[currentState.value]
      ensures explore < epsilon ==> action == Some(actions[Pick(|actions|, pick)])
      ensures explore >= epsilon ==>
                action == BestChoice(qTable[currentState.value], stateActions[currentState.value], actions, pick)
    {
      var s := currentState.value;
      if explore < epsilon {
        var chosen := ChooseRandomAction(actions, pick);
        action := Some(chosen);
      } else {
        action := ChooseBestAction(actions, pick);
        BestChoiceLegal(qTable[s], stateActions[s], actions, pick);
      }
      if action.Some? {
        AgreeMember(qTable[s], stateActions[s], action.value);
      }
    }

    /** Registers, in order, the offered actions the current state does not know yet. */
    method RegisterActions(actions: seq<Action>)
      requires Valid() && currentState.Some?
      modifies this`qTable, this`stateActions
      ensures Valid()
      ensures var s := currentState.value;
              var r := Registered(Row(old(qTable)[s], old(stateActions)[s]), actions);
              stateActions == old(stateActions)[s := r.known] && qTable == old(qTable)[s := r.values]
      ensures forall a :: a in actions ==> a in stateActions[currentState.value]
      ensures |old(stateActions)[currentState.value]| <= |stateActions[currentState.value]|
    {
      var s := currentState.value;
      ghost var row0 := Row(qTable[s], stateActions[s]);
      RegisterKeepsTables(qTable, stateActions, s, actions, previousState, previousAction);
      assert Agree(row0.values, row0.known);
      RegisteredMembers(row0, actions);
      RegisteredPrefix(row0, actions);
      var k := 0;
      while k < |actions|
        invariant 0 <= k <= |actions|
        invariant stateActions == old(stateActions)[s := Registered(row0, actions[..k]).known]
        invariant qTable == old(qTable)[s := Registered(row0, actions[..k]).values]
      {
        var a := actions[k];
        assert actions[..k + 1][..k] == actions[..k];
        assert Registered(row0, actions[..k + 1]) == Register(Registered(row0, actions[..k]), a);
        if a !in stateActions[s] {
          AddActionToQTable(a);
          stateActions := stateActions[s := stateActions[s] + [a]];
        }
        k := k + 1;
      }
      assert actions[..k] == actions;
    }

    /** A new state gets an empty row of values. */
    method AddStateToQTable(state: State)
      modifies this`qTable
      ensures qTable == old(qTable)[state := map[]]
    {
      qTable := qTable[state := map[]];
    }

    /** A new action of the current state starts at the initial value. */
    method AddActionToQTable(action: Action)
      requires currentState.Some? && currentState.value in qTable
      modifies this`qTable
      ensures qTable == old(qTable)[currentState.value := old(qTable)[currentState.value][action := InitQValue]]
    {
      qTable := qTable[currentState.value := qTable[currentState.value][action := InitQValue]];
    }

    method UpdateQTable(env: Observation)
      requires TablesAgree(qTable, stateActions) && env.state in stateActions
      requires PreviousKnown(qTable, previousState, previousAction)
      requires env.isTerminal ==> previousState.Some?
      modifies this`qTable
      ensures qTable == Updated(old(qTable), stateActions, previousState, previousAction, env)
    {
      if |stateActions[env.state]| > 0 && previousState.Some? && previousAction.Some? {
        assert Agree(qTable[env.state], stateActions[env.state]);
        var ranked := GetActionsByValue(env.state);
        var currentAction := ranked[0];
        var oldQ := qTable[previousState.value][previousAction.value];
        var newQ := (1.0 - LearningRate) * oldQ
                    + LearningRate * (env.reward + Gamma * qTable[env.state][currentAction]);
        qTable := qTable[previousState.value := qTable[previousState.value][previousAction.value := newQ]];
      } else if env.isTerminal && previousAction.Some? {
        qTable := qTable[previousState.value := qTable[previousState.value][previousAction.value := env.reward]];
      }
    }

    /** A uniform draw among `actions`. */
    static method ChooseRandomAction(actions: seq<Action>, pick: real) returns (action: Action)
      requires |actions| > 0 && IsRoll(pick)
      ensures action == actions[Pick(|actions|, pick)]
      ensures action in actions
    {
      var rnd := Pick(|actions|, pick);
      action := actions[rnd];
    }

    /**
     * Collects, in ranked order, the actions valued as highly as the first
     * ranked one that are legal, and draws one of them.
     */
    method ChooseBestAction(actions: seq<Action>, pick: real) returns (action: Option<Action>)
      requires IsRoll(pick) && currentState.Some?
      requires currentState.value in qTable && currentState.value in stateActions
      requires Known(qTable[currentState.value], stateActions[currentState.value])
      requires |stateActions[currentState.value]| > 0
      ensures action == BestChoice(qTable[currentState.value], stateActions[currentState.value], actions, pick)
    {
      var s := currentState.value;
      ghost var q := qTable[s];
      var ranked := GetActionsByValue(s);
      var highest := qTable[s][ranked[0]];
      var best: seq<Action> := [];
      var k := 0;
      while k < |ranked|
        invariant 0 <= k <= |ranked|
        invariant best == Among(WithValue(q, ranked[..k], highest), actions)
      {
        var a := ranked[k];
        assert ranked[..k + 1] == ranked[..k] + [a];
        WithValueAppend(q, ranked[..k], [a], highest);
        AmongAppend(WithValue(q, ranked[..k], highest), WithValue(q, [a], highest), actions);
        if qTable[s][a] == highest && a in actions {
          best := best + [a];
        }
        k := k + 1;
      }
      assert ranked[..k] == ranked;
      if |best| > 0 {
        var rnd := Pick(|best|, pick);
        action := Some(best[rnd]);
      } else {
        action := None;
      }
    }

    /** The actions of `state` by decreasing value, ties in registration order. */
    method GetActionsByValue(state: State) returns (ranked: seq<Action>)
      requires state in qTable && state in stateActions && Known(qTable[state], stateActions[state])
      ensures ranked == Ranked(qTable[state], stateActions[state])
    {
      ranked := Ranked(qTable[state], stateActions[state]);
    }
  }
}
