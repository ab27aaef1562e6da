/** The bookkeeping of `Runner` (backend/rainbow_selection.py): the
    algorithm name built from the five Rainbow flags, the epsilon schedule,
    the training/evaluation loop that turns each policy action into a
    storage-node URL, and the `action_list.txt` artifact. The DQN agent is a
    function parameter; its networks, replay buffers and learning step are
    not part of this model. */
module Runner {
  import opened Wrappers
  import opened LoadBalance
  import opened PlacementEnv

  /** The storage nodes; action a sends the chunk to `NodeServers[a]`. */
  const NodeServers: seq<string> := [
    "http://52.53.207.217:7001",
    "http://18.144.171.222:7001",
    "http://54.67.117.71:7001"
  ]

  // ---------------------------------------------------------------------
  // Algorithm name

  datatype Flags = Flags(useDouble: bool, useDueling: bool, useNoisy: bool, usePer: bool, useNSteps: bool)

  predicate AllOn(f: Flags)
  {
    f.useDouble && f.useDueling && f.useNoisy && f.usePer && f.useNSteps
  }

  function Suffix(on: bool, s: string): string
  {
    if on then s else ""
  }

  /** `self.algorithm` as `Runner.__init__` builds it. */
  function AlgorithmName(f: Flags): (name: string)
    ensures |name| >= 3
  {
    if AllOn(f) then "rainbow_dqn"
    else
      "dqn" + (Suffix(f.useDouble, "_double") + (Suffix(f.useDueling, "_dueling")
        + (Suffix(f.useNoisy, "_noisy") + (Suffix(f.usePer, "_per")
        + Suffix(f.useNSteps, "_n_steps")))))
  }

  /** Removes `p` from the front of `s` when it is there. */
  function StripPrefix(s: string, p: string): (r: (bool, string))
    ensures r.0 ==> s == p + r.1
    ensures !r.0 ==> r.1 == s
  {
    if |p| <= |s| && s[..|p|] == p then (true, s[|p|..]) else (false, s)
  }

  /** Reads the flags back from an algorithm name; `None` for a string no
      flag combination produces. */
  function ParseAlgorithmName(name: string): (r: Option<Flags>)
  {
    if name == "rainbow_dqn" then Some(Flags(true, true, true, true, true))
    else if |name| < 3 || name[..3] != "dqn" then None
    else ParseMarkers(name[3..])
  }

  /** Reads the markers that follow "dqn", each at most once, in order. */
  function ParseMarkers(t: string): Option<Flags>
  {
    match ReadMarkers(t, 0)
    case None => None
    case Some(b) =>
      var f := Flags(b[0], b[1], b[2], b[3], b[4]);
      if AllOn(f) then None else Some(f)
  }

  /** Reads markers k .. 4 from the front of `t`, one flag per marker;
      `None` when text is left over. */
  function ReadMarkers(t: string, k: nat): (r: Option<seq<bool>>)
    requires k <= 5
    ensures r.Some? ==> |r.value| == 5 - k
    decreases 5 - k
  {
    if k == 5 then (if t == [] then Some([]) else None)
    else
      var (on, rest) := StripPrefix(t, Markers[k]);
      match ReadMarkers(rest, k + 1)
      case None => None
      case Some(b) => Some([on] + b)
  }

  /** Stripping an optional marker gives back whether it was there, as long
      as what follows does not itself start with the marker. */
  lemma StripSuffix(on: bool, p: string, rest: string)
    requires |p| > 0
    requires !(|p| <= |rest| && rest[..|p|] == p)
    ensures StripPrefix(Suffix(on, p) + rest, p) == (on, rest)
  {
    if on {
      var s := p + rest;
      assert Suffix(on, p) + rest == s;
      assert s[..|p|] == p;
      assert s[|p|..] == rest;
      assert StripPrefix(s, p) == (true, rest);
    } else {
      assert Suffix(on, p) + rest == rest;
    }
  }

  /** The five name markers, in the order `Runner.__init__` appends them. */
  const Markers: seq<string> := ["_double", "_dueling", "_noisy", "_per", "_n_steps"]

  function Bits(f: Flags): seq<bool>
  {
    [f.useDouble, f.useDueling, f.useNoisy, f.usePer, f.useNSteps]
  }

  /** The markers from position k on, each present when its flag is on. */
  function Tail(bits: seq<bool>, k: nat): string
    requires |bits| == 5 && k <= 5
    decreases 5 - k
  {
    if k == 5 then "" else Suffix(bits[k], Markers[k]) + Tail(bits, k + 1)
  }

  /** Two markers differ in their second or third character. */
  lemma MarkersDiffer(j: nat, k: nat)
    requires j < k < 5
    ensures |Markers[j]| >= 3 && |Markers[k]| >= 3
    ensures Markers[j][1] != Markers[k][1] || Markers[j][2] != Markers[k][2]
  {
  }

  /** No marker before position k can be read at the front of `Tail(bits, k)`. */
  lemma {:induction false} TailNotPrefix(bits: seq<bool>, k: nat, j: nat)
    requires |bits| == 5 && j < k <= 5
    ensures var t := Tail(bits, k); !(|Markers[j]| <= |t| && t[..|Markers[j]|] == Markers[j])
    decreases 5 - k
  {
    var t := Tail(bits, k);
    var p := Markers[j];
    if k < 5 {
      if bits[k] {
        MarkersDiffer(j, k);
        var m := Markers[k];
        assert t == m + Tail(bits, k + 1);
        assert t[1] == m[1] && t[2] == m[2];
      } else {
        TailNotPrefix(bits, k + 1, j);
      }
    }
  }

  /** Stripping the marker at position k of a tail gives back its flag and
      the tail that follows. */
  lemma StripTail(bits: seq<bool>, k: nat)
    requires |bits| == 5 && k < 5
    ensures StripPrefix(Tail(bits, k), Markers[k]) == (bits[k], Tail(bits, k + 1))
  {
    TailNotPrefix(bits, k + 1, k);
    StripSuffix(bits[k], Markers[k], Tail(bits, k + 1));
  }

  /** Reading the markers of a tail gives back its flags. */
  lemma {:induction false} ReadTail(bits: seq<bool>, k: nat)
    requires |bits| == 5 && k <= 5
    ensures ReadMarkers(Tail(bits, k), k) == Some(bits[k..])
    decreases 5 - k
  {
    if k < 5 {
      StripTail(bits, k);
      ReadTail(bits, k + 1);
      var (on, rest) := StripPrefix(Tail(bits, k), Markers[k]);
      assert on == bits[k] && rest == Tail(bits, k + 1);
      assert ReadMarkers(Tail(bits, k), k) == Some([bits[k]] + bits[k + 1..]);
      assert bits[k..] == [bits[k]] + bits[k + 1..];
    } else {
      assert bits[k..] == [];
    }
  }

  lemma ParseMarkersTail(f: Flags)
    requires !AllOn(f)
    ensures ParseMarkers(Tail(Bits(f), 0)) == Some(f)
  {
    var b := Bits(f);
    ReadTail(b, 0);
    assert b[0..] == b;
    assert ReadMarkers(Tail(b, 0), 0) == Some(b);
    assert Flags(b[0], b[1], b[2], b[3], b[4]) == f;
  }

  lemma NameIsTail(f: Flags)
    requires !AllOn(f)
    ensures AlgorithmName(f) == "dqn" + Tail(Bits(f), 0)
  {
    var b := Bits(f);
    assert Markers[0] == "_double" && Markers[1] == "_dueling" && Markers[2] == "_noisy";
    assert Markers[3] == "_per" && Markers[4] == "_n_steps";
    var t4 := Suffix(f.useNSteps, "_n_steps");
    assert Tail(b, 4) == t4;
    var t3 := Suffix(f.usePer, "_per") + t4;
    assert Tail(b, 3) == t3;
    var t2 := Suffix(f.useNoisy, "_noisy") + t3;
    assert Tail(b, 2) == t2;
    var t1 := Suffix(f.useDueling, "_dueling") + t2;
    assert Tail(b, 1) == t1;
    var t0 := Suffix(f.useDouble, "_double") + t1;
    assert Tail(b, 0) == t0;
  }

  /** The name determines the flags: parsing it gives them back. */
  lemma AlgorithmNameRoundTrip(f: Flags)
    ensures ParseAlgorithmName(AlgorithmName(f)) == Some(f)
  {
    if !AllOn(f) {
      var b := Bits(f);
      var name := AlgorithmName(f);
      NameIsTail(f);
      var t := Tail(b, 0);
      assert name == "dqn" + t;
      assert name[0] == 'd';
      assert name[..3] == "dqn";
      assert name[3..] == t;
      ParseMarkersTail(f);
      assert ParseAlgorithmName(name) == ParseMarkers(t);
    }
  }

  /** Different flag settings never share a name. */
  lemma AlgorithmNameInjective(f: Flags, g: Flags)
    requires AlgorithmName(f) == AlgorithmName(g)
    ensures f == g
  {
    AlgorithmNameRoundTrip(f);
    AlgorithmNameRoundTrip(g);
  }

  /** The name is "rainbow_dqn" exactly when all five flags are on; otherwise
      it starts with "dqn". */
  lemma RainbowName(f: Flags)
    ensures AlgorithmName(f) == "rainbow_dqn" <==> AllOn(f)
    ensures !AllOn(f) ==> AlgorithmName(f)[..3] == "dqn"
  {
    if !AllOn(f) {
      assert AlgorithmName(f)[0] == 'd';
      assert "rainbow_dqn"[0] == 'r';
    }
  }

  // ---------------------------------------------------------------------
  // Epsilon schedule

  /** The command-line hyperparameters the loop reads. */
  datatype Hyper = Hyper(
    maxTrainSteps: int,
    epsilonInit: real,
    epsilonMin: real,
    epsilonDecaySteps: int,
    flags: Flags)

  /** The defaults of `get_strategy`: one episode of eight steps, every
      Rainbow component on. */
  const DefaultHyper: Hyper := Hyper(8, 0.5, 0.1, 100000, Flags(true, true, true, true, true))

  /** A noisy network explores by itself and needs no epsilon; otherwise
      epsilon decays linearly to a floor. */
  datatype Exploration = NoisyNet | Decaying(epsilonMin: real, decay: real)

  predicate ValidHyper(h: Hyper)
  {
    !h.flags.useNoisy ==> h.epsilonDecaySteps != 0
  }

  /** The exploration `Runner.__init__` sets up: none with a noisy
      network, otherwise a per-step decay that spends the whole gap between
      `epsilon_init` and `epsilon_min` in `epsilon_decay_steps` steps. */
  function ExplorationOf(h: Hyper): (ex: Exploration)
    requires ValidHyper(h)
    ensures ex.NoisyNet? <==> h.flags.useNoisy
    ensures ex.Decaying? ==> ex.epsilonMin == h.epsilonMin
    ensures ex.Decaying? ==> h.epsilonDecaySteps as real * ex.decay == h.epsilonInit - h.epsilonMin
    ensures ex.Decaying? && h.epsilonInit >= h.epsilonMin && h.epsilonDecaySteps > 0 ==> ex.decay >= 0.0
  {
    if h.flags.useNoisy then NoisyNet
    else Decaying(h.epsilonMin, (h.epsilonInit - h.epsilonMin) / h.epsilonDecaySteps as real)
  }

  function InitialEpsilon(h: Hyper): real
  {
    if h.flags.useNoisy then 0.0 else h.epsilonInit
  }

  function Max(a: real, b: real): real
  {
    if a >= b then a else b
  }

  /** Epsilon after one environment step. */
  function NextEpsilon(eps: real, ex: Exploration): (e: real)
    ensures ex.NoisyNet? ==> e == eps
    ensures ex.Decaying? ==> e >= ex.epsilonMin
    ensures ex.Decaying? && ex.decay >= 0.0 && eps >= ex.epsilonMin ==> e <= eps
  {
    match ex
    case NoisyNet => eps
    case Decaying(epsMin, decay) => Max(eps - decay, epsMin)
  }

  /** Epsilon after `n` steps. */
  function EpsilonAfter(eps: real, ex: Exploration, n: nat): real
  {
    if n == 0 then eps else NextEpsilon(EpsilonAfter(eps, ex, n - 1), ex)
  }

  /** With a non-negative decay, epsilon after n >= 1 steps is the linear
      schedule cut off at the floor. */
  lemma {:induction false} EpsilonClosedForm(eps: real, epsMin: real, decay: real, n: nat)
    requires decay >= 0.0 && n > 0
    ensures EpsilonAfter(eps, Decaying(epsMin, decay), n) == Max(eps - n as real * decay, epsMin)
  {
    EpsilonAfterSpent(eps, epsMin, decay, n);
    SpentIsProduct(n, decay);
  }

  /** The total decay of `n` steps, added up one step at a time. */
  function Spent(n: nat, d: real): real
  {
    if n == 0 then 0.0 else Spent(n - 1, d) + d
  }

  lemma {:induction false} SpentIsProduct(n: nat, d: real)
    ensures Spent(n, d) == n as real * d
  {
    if n > 0 {
      SpentIsProduct(n - 1, d);
      RealMulStep(n, d);
    }
  }

  lemma {:induction false} EpsilonAfterSpent(eps: real, epsMin: real, decay: real, n: nat)
    requires decay >= 0.0 && n > 0
    ensures EpsilonAfter(eps, Decaying(epsMin, decay), n) == Max(eps - Spent(n, decay), epsMin)
  {
    if n > 1 {
      EpsilonAfterSpent(eps, epsMin, decay, n - 1);
      MaxShift(eps - Spent(n - 1, decay), epsMin, decay);
    }
  }

  /** Decaying from the cut-off value is cutting off the decayed value. */
  lemma MaxShift(a: real, floor: real, d: real)
    requires d >= 0.0
    ensures Max(Max(a, floor) - d, floor) == Max(a - d, floor)
  {
  }

  lemma RealMulStep(n: nat, d: real)
    requires n >= 1
    ensures n as real * d == (n - 1) as real * d + d
  {
  }

  /** With `epsilon_init >= epsilon_min` and a positive number of decay
      steps, epsilon stays within [epsilon_min, epsilon_init] and never
      rises. */
  lemma EpsilonSchedule(h: Hyper, n: nat)
    requires !h.flags.useNoisy
    requires h.epsilonInit >= h.epsilonMin && h.epsilonDecaySteps > 0
    ensures h.epsilonMin <= EpsilonAfter(InitialEpsilon(h), ExplorationOf(h), n) <= h.epsilonInit
    ensures EpsilonAfter(InitialEpsilon(h), ExplorationOf(h), n + 1)
         <= EpsilonAfter(InitialEpsilon(h), ExplorationOf(h), n)
  {
    var d := ExplorationOf(h).decay;
    assert d >= 0.0;
    if n > 0 {
      EpsilonClosedForm(h.epsilonInit, h.epsilonMin, d, n);
      assert n as real * d >= 0.0;
    }
  }

  /** The floor is reached after exactly `epsilon_decay_steps` steps. */
  lemma EpsilonReachesFloor(h: Hyper)
    requires !h.flags.useNoisy
    requires h.epsilonInit >= h.epsilonMin && h.epsilonDecaySteps > 0
    ensures EpsilonAfter(InitialEpsilon(h), ExplorationOf(h), h.epsilonDecaySteps) == h.epsilonMin
  {
    var d := ExplorationOf(h).decay;
    assert h.epsilonDecaySteps as real * d == h.epsilonInit - h.epsilonMin;
    EpsilonClosedForm(h.epsilonInit, h.epsilonMin, d, h.epsilonDecaySteps);
  }

  /** With a noisy network epsilon is 0 and stays 0. */
  lemma {:induction false} NoisyEpsilon(h: Hyper, n: nat)
    requires h.flags.useNoisy
    ensures EpsilonAfter(InitialEpsilon(h), ExplorationOf(h), n) == 0.0
  {
    if n > 0 {
      NoisyEpsilon(h, n - 1);
    }
  }

  // ---------------------------------------------------------------------
  // The loop

  /** `terminal = done and episode_steps != episode_limit`. */
  function Terminal(done: bool, episodeSteps: int, episodeLimit: int): (t: bool)
    ensures t ==> done
    ensures episodeSteps != episodeLimit ==> (t <==> done)
    ensures episodeSteps == episodeLimit ==> !t
  {
    done && episodeSteps != episodeLimit
  }

  /** What `run` hands to the replay buffer for one step (the reward is not
      modelled). */
  datatype Transition = Transition(state: seq<real>, action: int, nextState: seq<real>, terminal: bool, done: bool)

  datatype RunOutcome = RunOutcome(
    actionList: seq<string>,
    actions: seq<int>,
    transitions: seq<Transition>,
    totalSteps: int,
    epsilon: real,
    env: Env)

  function ToReals(xs: seq<int>): (r: seq<real>)
    ensures |r| == |xs|
    ensures forall i :: 0 <= i < |xs| ==> r[i] == xs[i] as real
  {
    seq(|xs|, i requires 0 <= i < |xs| => xs[i] as real)
  }

  /** The agent's `choose_action(state, epsilon)`. The agent learns from
      every transition stored so far, so its choice is a function of that
      history as well as of the observation and epsilon. The history's
      length is the global step number, so any sequence of choices a
      learning or randomised agent makes in one run is made by some such
      function. */
  type Policy = (seq<Transition>, seq<real>, real) -> int

  ghost predicate ValidPolicy(chooseAction: Policy)
  {
    forall history, state, eps :: 0 <= chooseAction(history, state, eps) < |NodeServers|
  }

  /** What the loop has produced so far: one URL, one action and one
      transition per step, epsilon decayed once per step. */
  ghost predicate Recorded(o: RunOutcome, eps0: real, ex: Exploration)
  {
    && |o.actionList| == |o.actions| == |o.transitions| == o.totalSteps
    && (forall i :: 0 <= i < |o.actions| ==>
          0 <= o.actions[i] < |NodeServers| && o.actionList[i] == NodeServers[o.actions[i]])
    && (forall i :: 0 <= i < |o.transitions| ==>
          && o.transitions[i].action == o.actions[i]
          && o.transitions[i].terminal == o.transitions[i].done
          && (o.transitions[i].done <==> (i + 1) % SlotNum == 0))
    && o.epsilon == EpsilonAfter(eps0, ex, o.totalSteps)
  }

  /** The observation `reset` hands the agent at the start of the episode
      that begins at step `i`: half the remaining-chunk count it finds (all
      chunks before the first episode, none after a full one), then the
      midpoint of every load bound. */
  function StartObservation(i: int): seq<real>
  {
    var left := if i == 0 then InitialChunks else InitialChunks - SlotNum;
    [left as real / 2.0, LoadHigh / 2.0, LoadHigh / 2.0, LoadHigh / 2.0]
  }

  /** Every recorded action is the agent's choice for the transitions
      stored before it, the observation it was shown, and the epsilon of
      that step. */
  ghost predicate Chosen(o: RunOutcome, chooseAction: Policy, eps0: real, ex: Exploration)
  {
    ChosenSteps(o.transitions, chooseAction, eps0, ex)
  }

  ghost predicate ChosenSteps(t: seq<Transition>, chooseAction: Policy, eps0: real, ex: Exploration)
  {
    forall i :: 0 <= i < |t| ==>
      t[i].action == chooseAction(t[..i], t[i].state, EpsilonAfter(eps0, ex, i))
  }

  /** Each transition starts where the previous one ended, except at an
      episode start, where it starts from the observation `reset` returned. */
  ghost predicate Chained(o: RunOutcome)
  {
    ChainedSteps(o.transitions)
  }

  ghost predicate ChainedSteps(t: seq<Transition>)
  {
    && (forall i :: 0 <= i < |t| && i % SlotNum == 0 ==> t[i].state == StartObservation(i))
    && (forall i, j :: 0 <= i && j == i + 1 && j < |t| && j % SlotNum != 0 ==>
          t[j].state == t[i].nextState)
  }

  /** Recording the agent's answer to the history keeps every action the
      agent's. */
  lemma ChosenSnoc(t: seq<Transition>, tr: Transition, chooseAction: Policy, eps0: real, ex: Exploration)
    requires ChosenSteps(t, chooseAction, eps0, ex)
    requires tr.action == chooseAction(t, tr.state, EpsilonAfter(eps0, ex, |t|))
    ensures ChosenSteps(t + [tr], chooseAction, eps0, ex)
  {
    var t' := t + [tr];
    forall i | 0 <= i < |t'|
      ensures t'[i].action == chooseAction(t'[..i], t'[i].state, EpsilonAfter(eps0, ex, i))
    {
      assert t'[..i] == t[..i] by {
        assert t' [..|t|] == t;
      }
    }
  }

  /** A transition that starts where the last one ended, or from the reset
      observation at an episode start, keeps the chain. */
  lemma ChainedSnoc(t: seq<Transition>, tr: Transition)
    requires ChainedSteps(t)
    requires |t| % SlotNum == 0 ==> tr.state == StartObservation(|t|)
    requires |t| % SlotNum != 0 ==> |t| > 0 && tr.state == t[|t| - 1].nextState
    ensures ChainedSteps(t + [tr])
  {
    var t' := t + [tr];
    forall i | 0 <= i < |t'| && i % SlotNum == 0
      ensures t'[i].state == StartObservation(i)
    {
      if i < |t| {
        assert t'[i] == t[i];
      }
    }
    forall i, j | 0 <= i && j == i + 1 && j < |t'| && j % SlotNum != 0
      ensures t'[j].state == t'[i].nextState
    {
      assert t'[i] == t[i];
      if j < |t| {
        assert t'[j] == t[j];
      }
    }
  }

  /** The observation `step` returns after step `i` of a run: the chunks
      the user has left after the `i % SlotNum + 1` sends of its episode so
      far, then each server's load, which is the number of those sends the
      episode's actions gave it. */
  function StepObservation(actions: seq<int>, i: int): seq<real>
    requires 0 <= i < |actions|
  {
    var start := i - i % SlotNum;
    ToReals([InitialChunks - (i % SlotNum + 1)] + seq(ServerNum, j => Count(actions[start..i + 1], j)))
  }

  /** Every transition's next state is the observation the environment
      returned for that step. */
  ghost predicate Observed(o: RunOutcome)
  {
    ObservedSteps(o.transitions, o.actions)
  }

  ghost predicate ObservedSteps(t: seq<Transition>, actions: seq<int>)
  {
    forall i :: 0 <= i < |t| && i < |actions| ==> t[i].nextState == StepObservation(actions, i)
  }

  /** The observation after a step only looks at the actions up to it, so
      recording a later action leaves the earlier next states correct. */
  lemma ObservedSnoc(t: seq<Transition>, actions: seq<int>, tr: Transition, a: int)
    requires |t| == |actions| && ObservedSteps(t, actions)
    requires tr.nextState == StepObservation(actions + [a], |t|)
    ensures ObservedSteps(t + [tr], actions + [a])
  {
    var t', actions' := t + [tr], actions + [a];
    forall i | 0 <= i < |t'| && i < |actions'|
      ensures t'[i].nextState == StepObservation(actions', i)
    {
      if i < |t| {
        var start := i - i % SlotNum;
        assert actions'[start..i + 1] == actions[start..i + 1];
        assert t'[i] == t[i];
      }
    }
  }

  /** The observation a step inside an episode returns, read off the
      episode bookkeeping, is `StepObservation` of the actions with the new
      one appended. */
  lemma StepObservationOf(actions: seq<int>, start: int, action: int, stepped: StepResult)
    requires start % SlotNum == 0 && 0 <= start <= |actions| < start + SlotNum
    requires EpisodeEnv(stepped.env, actions[start..] + [action])
    requires stepped.state == stepped.env.remaining + stepped.env.serverLoad
    ensures ToReals(stepped.state) == StepObservation(actions + [action], |actions|)
  {
    var n := |actions|;
    var actions' := actions + [action];
    var taken := actions[start..] + [action];
    SlotOffset(start, n);
    assert actions'[start..n + 1] == taken;
    assert stepped.env.remaining == [InitialChunks - (n % SlotNum + 1)] by {
      assert |stepped.env.remaining| == 1;
    }
    assert stepped.env.serverLoad == seq(ServerNum, j => Count(taken, j));
  }

  /** A step number inside the episode that began at `start` is `start`
      plus its offset within the episode. */
  lemma SlotOffset(start: int, n: int)
    requires start % SlotNum == 0 && start <= n < start + SlotNum
    ensures n % SlotNum == n - start && n - n % SlotNum == start
  {
    assert SlotNum == 8;
  }

  /** Everything the run stored came from the agent and the environment:
      each action is the agent's choice, each observation the previous next
      state or the reset observation, each next state what the step
      returned. */
  ghost predicate FromAgent(o: RunOutcome, chooseAction: Policy, eps0: real, ex: Exploration)
  {
    Chosen(o, chooseAction, eps0, ex) && Chained(o) && Observed(o)
  }

  /** The observation the inner loop holds in an episode that began at
      step `start`. */
  ghost predicate Holding(o: RunOutcome, start: int, state: seq<real>)
  {
    if o.totalSteps == start then state == StartObservation(start)
    else 0 < o.totalSteps == |o.transitions| && state == o.transitions[o.totalSteps - 1].nextState
  }

  /** Asking the agent and recording its answer keeps the actions the
      agent's and the observations chained. */
  lemma AgentStepKeeps(o: RunOutcome, start: int, eps0: real, ex: Exploration, chooseAction: Policy,
                       state: seq<real>, action: int, stepped: StepResult)
    requires |o.transitions| == o.totalSteps && o.epsilon == EpsilonAfter(eps0, ex, o.totalSteps)
    requires Chosen(o, chooseAction, eps0, ex) && Chained(o)
    requires start % SlotNum == 0 && start <= o.totalSteps < start + SlotNum
    requires Holding(o, start, state)
    requires 0 <= action < |NodeServers|
    requires action == chooseAction(o.transitions, state, o.epsilon)
    ensures Chosen(RecordStep(o, ex, state, action, stepped, 0, SlotNum), chooseAction, eps0, ex)
    ensures Chained(RecordStep(o, ex, state, action, stepped, 0, SlotNum))
    ensures Holding(RecordStep(o, ex, state, action, stepped, 0, SlotNum), start, ToReals(stepped.state))
  {
    var n := o.totalSteps;
    var o' := RecordStep(o, ex, state, action, stepped, 0, SlotNum);
    var tr := o'.transitions[n];
    assert o'.transitions == o.transitions + [tr];
    assert n % SlotNum == 0 <==> n == start by {
      assert SlotNum == 8;
    }
    ChosenSnoc(o.transitions, tr, chooseAction, eps0, ex);
    ChainedSnoc(o.transitions, tr);
  }

  /** One iteration of the inner loop of `run`, after the environment step:
      record the URL and the transition, count the step, decay epsilon. */
  function RecordStep(o: RunOutcome, ex: Exploration, state: seq<real>, action: int,
                      stepped: StepResult, episodeSteps: int, episodeLimit: int): (o': RunOutcome)
    requires 0 <= action < |NodeServers|
    ensures o'.totalSteps == o.totalSteps + 1
    ensures o'.actions == o.actions + [action]
    ensures o'.actionList == o.actionList + [NodeServers[action]]
    ensures o'.epsilon == NextEpsilon(o.epsilon, ex)
    ensures o'.env == stepped.env
  {
    RunOutcome(
      o.actionList + [NodeServers[action]],
      o.actions + [action],
      o.transitions + [Transition(state, action, ToReals(stepped.state),
                                  Terminal(stepped.done, episodeSteps, episodeLimit), stepped.done)],
      o.totalSteps + 1,
      NextEpsilon(o.epsilon, ex),
      stepped.env)
  }

  lemma RecordStepKeepsRecord(o: RunOutcome, eps0: real, ex: Exploration, state: seq<real>,
                              action: int, stepped: StepResult)
    requires Recorded(o, eps0, ex)
    requires 0 <= action < |NodeServers|
    requires stepped.done <==> (o.totalSteps + 1) % SlotNum == 0
    ensures Recorded(RecordStep(o, ex, state, action, stepped, 0, SlotNum), eps0, ex)
  {
  }

  /** The environment inside an episode whose actions so far are `taken`:
      one slot used per action, every user still has the chunks those
      steps did not send, the episode is done exactly when all slots are
      used, and each server's load counts the actions for it. */
  ghost predicate EpisodeEnv(env: Env, taken: seq<int>)
  {
    && WellShaped(env)
    && env.stepNum == |taken| <= SlotNum
    && (forall i :: 0 <= i < UserNum ==> env.remaining[i] == InitialChunks - env.stepNum)
    && (env.done <==> env.stepNum == SlotNum)
    && (forall j :: 0 <= j < ServerNum ==> env.serverLoad[j] == Count(taken, j))
  }

  /** Inside an episode that began at step `start`. */
  ghost predicate InEpisode(o: RunOutcome, start: int, eps0: real, ex: Exploration)
  {
    && Recorded(o, eps0, ex)
    && start % SlotNum == 0
    && 0 <= start <= o.totalSteps
    && EpisodeEnv(o.env, o.actions[start..])
  }

  /** Inside an episode that is not yet done, a step keeps the episode
      bookkeeping with the new action appended. */
  lemma StepInEpisode(env: Env, taken: seq<int>, action: int)
    requires EpisodeEnv(env, taken) && !env.done
    requires 0 <= action < |NodeServers|
    ensures 0 <= env.stepNum < SlotNum
    ensures EpisodeEnv(Step(env, action).env, taken + [action])
  {
    StepCounters(env, action);
    StepLoads(env, action, taken);
  }

  /** One inner-loop iteration keeps the episode bookkeeping. */
  lemma EpisodeStepKeeps(o: RunOutcome, start: int, eps0: real, ex: Exploration,
                         state: seq<real>, action: int, stepped: StepResult)
    requires InEpisode(o, start, eps0, ex) && !o.env.done
    requires 0 <= action < |NodeServers|
    requires EpisodeEnv(stepped.env, o.actions[start..] + [action])
    requires stepped.done == stepped.env.done
    ensures InEpisode(RecordStep(o, ex, state, action, stepped, 0, SlotNum), start, eps0, ex)
    ensures RecordStep(o, ex, state, action, stepped, 0, SlotNum).actions[..start] == o.actions[..start]
  {
    var k := |o.actions[start..]|;
    var o' := RecordStep(o, ex, state, action, stepped, 0, SlotNum);
    assert o.totalSteps + 1 == start + k + 1;
    assert stepped.done <==> (o.totalSteps + 1) % SlotNum == 0 by {
      SlotBoundary(start, k);
    }
    RecordStepKeepsRecord(o, eps0, ex, state, action, stepped);
    assert o'.actions[start..] == o.actions[start..] + [action];
    assert o'.actions[..start] == o.actions[..start];
  }

  /** Within an episode that began at a multiple of `SlotNum`, the step
      count reaches the next multiple exactly on the last slot. */
  lemma SlotBoundary(start: int, k: int)
    requires start % SlotNum == 0 && 0 <= k < SlotNum
    ensures (start + k + 1) % SlotNum == 0 <==> k + 1 == SlotNum
  {
    assert SlotNum == 8;
  }

  /** When the loads count the actions taken so far, they still do after
      one more step. */
  lemma StepLoads(env: Env, action: int, taken: seq<int>)
    requires WellShaped(env) && 0 <= env.stepNum < SlotNum
    requires 0 <= action < |NodeServers|
    requires forall j :: 0 <= j < ServerNum ==> env.serverLoad[j] == Count(taken, j)
    ensures forall j :: 0 <= j < ServerNum ==>
      Step(env, action).env.serverLoad[j] == Count(taken + [action], j)
  {
    StepChargesChosenServer(env, action);
    forall j | 0 <= j < ServerNum
      ensures Step(env, action).env.serverLoad[j] == Count(taken + [action], j)
    {
      CountSnoc(taken, action, j);
    }
  }

  /** One episode of `run`: reset, then step until the environment says
      done. Whatever the policy picks, that takes exactly `SlotNum` steps,
      and the final loads count the episode's actions per server. */
  method Episode(ex: Exploration, eps0: real, chooseAction: Policy,
                 o: RunOutcome) returns (o': RunOutcome)
    requires ValidPolicy(chooseAction)
    requires Recorded(o, eps0, ex) && WellShaped(o.env) && o.totalSteps % SlotNum == 0
    requires FromAgent(o, chooseAction, eps0, ex)
    requires o.env.remaining[0] == if o.totalSteps == 0 then InitialChunks else InitialChunks - SlotNum
    ensures Recorded(o', eps0, ex) && WellShaped(o'.env)
    ensures FromAgent(o', chooseAction, eps0, ex)
    ensures o'.env.remaining[0] == InitialChunks - SlotNum
    ensures o'.totalSteps == o.totalSteps + SlotNum
    ensures o'.actions[..o.totalSteps] == o.actions
    ensures o'.env.done
    ensures forall j :: 0 <= j < ServerNum ==>
      o'.env.serverLoad[j] == Count(o'.actions[o.totalSteps..], j)
  {
    var reset := Reset(o.env);
    var state := reset.obs;
    var done := false;
    var start := o.totalSteps;
    o' := o.(env := reset.env);
    assert o'.actions[start..] == [];
    assert state == StartObservation(start) by {
      ResetObservation(o.env);
    }
    while !done
      invariant InEpisode(o', start, eps0, ex)
      invariant o'.actions[..start] == o.actions
      invariant done == o'.env.done
      invariant Chosen(o', chooseAction, eps0, ex) && Chained(o') && Observed(o')
      invariant Holding(o', start, state)
      decreases SlotNum - o'.env.stepNum
    {
      o', state := InnerStep(ex, eps0, chooseAction, o', start, state);
      done := o'.env.done;
    }
  }

  /** One iteration of the inner loop of `run`: ask the agent, look up the
      node URL, step the environment, record the transition, decay epsilon.
      The recorded action is the agent's answer, and the next observation
      is the one the step returned. */
  method InnerStep(ex: Exploration, eps0: real, chooseAction: Policy, o: RunOutcome,
                   start: int, state: seq<real>) returns (o': RunOutcome, state': seq<real>)
    requires ValidPolicy(chooseAction)
    requires InEpisode(o, start, eps0, ex) && !o.env.done
    requires Chosen(o, chooseAction, eps0, ex) && Chained(o) && Holding(o, start, state)
    ensures InEpisode(o', start, eps0, ex)
    ensures o'.actions[..start] == o.actions[..start]
    ensures o'.env.stepNum == o.env.stepNum + 1
    ensures o'.actions == o.actions + [chooseAction(o.transitions, state, o.epsilon)]
    ensures Chosen(o', chooseAction, eps0, ex) && Chained(o') && Holding(o', start, state')
    ensures state' == ToReals(Step(o.env, chooseAction(o.transitions, state, o.epsilon)).state)
    ensures Observed(o) ==> Observed(o')
  {
    var episodeSteps := 0;
    var action := chooseAction(o.transitions, state, o.epsilon);
    StepInEpisode(o.env, o.actions[start..], action);
    var stepped := Step(o.env, action);
    EpisodeStepKeeps(o, start, eps0, ex, state, action, stepped);
    AgentStepKeeps(o, start, eps0, ex, chooseAction, state, action, stepped);
    o' := RecordStep(o, ex, state, action, stepped, episodeSteps, SlotNum);
    state' := ToReals(stepped.state);
    if Observed(o) {
      StepObservationOf(o.actions, start, action, stepped);
      assert o'.transitions == o.transitions + [o'.transitions[o.totalSteps]];
      ObservedSnoc(o.transitions, o.actions, o'.transitions[o.totalSteps], action);
    }
  }

  /** `Runner.__init__` followed by `Runner.run`. The outer loop checks the
      step budget only between episodes, and every episode runs its full
      eight steps, so the loop ends on a whole number of episodes, at or just
      past `max_train_steps`. One URL is appended per step, the URL of the
      server whose load the environment charges. `episode_steps` stays 0, so
      every `terminal` equals its `done`. */
  method Run(h: Hyper, chooseAction: Policy) returns (r: RunOutcome)
    requires ValidHyper(h)
    requires ValidPolicy(chooseAction)
    ensures r.totalSteps >= h.maxTrainSteps && r.totalSteps % SlotNum == 0
    ensures h.maxTrainSteps <= 0 ==> r.totalSteps == 0
    ensures h.maxTrainSteps > 0 ==> r.totalSteps < h.maxTrainSteps + SlotNum
    ensures |r.actionList| == |r.actions| == |r.transitions| == r.totalSteps
    ensures forall i :: 0 <= i < |r.actions| ==>
      0 <= r.actions[i] < |NodeServers| && r.actionList[i] == NodeServers[r.actions[i]]
    ensures forall i :: 0 <= i < |r.transitions| ==>
      && r.transitions[i].action == r.actions[i]
      && r.transitions[i].terminal == r.transitions[i].done
      && (r.transitions[i].done <==> (i + 1) % SlotNum == 0)
    ensures r.epsilon == EpsilonAfter(InitialEpsilon(h), ExplorationOf(h), r.totalSteps)
    ensures Chosen(r, chooseAction, InitialEpsilon(h), ExplorationOf(h))
    ensures Chained(r) && Observed(r)
    ensures WellShaped(r.env)
    ensures r.totalSteps > 0 ==> r.env.done && forall j :: 0 <= j < ServerNum ==>
      r.env.serverLoad[j] == Count(r.actions[r.totalSteps - SlotNum..], j)
  {
    var ex := ExplorationOf(h);
    var eps0 := InitialEpsilon(h);
    r := Train(h.maxTrainSteps, ex, eps0, chooseAction, RunOutcome([], [], [], 0, eps0, Init()));
  }

  /** The outer loop of `run`: whole episodes until the step budget is
      reached, each run by the same agent under the same schedule. */
  method Train(maxTrainSteps: int, ex: Exploration, eps0: real, chooseAction: Policy,
               r0: RunOutcome) returns (r: RunOutcome)
    requires ValidPolicy(chooseAction)
    requires BetweenEpisodes(r0, maxTrainSteps, eps0, ex) && FromAgent(r0, chooseAction, eps0, ex)
    requires r0.env.remaining[0] == if r0.totalSteps == 0 then InitialChunks else InitialChunks - SlotNum
    ensures BetweenEpisodes(r, maxTrainSteps, eps0, ex) && FromAgent(r, chooseAction, eps0, ex)
    ensures r.totalSteps >= maxTrainSteps
  {
    r := r0;
    while r.totalSteps < maxTrainSteps
      invariant BetweenEpisodes(r, maxTrainSteps, eps0, ex)
      invariant FromAgent(r, chooseAction, eps0, ex)
      invariant r.env.remaining[0] == if r.totalSteps == 0 then InitialChunks else InitialChunks - SlotNum
      decreases maxTrainSteps - r.totalSteps
    {
      var next := Episode(ex, eps0, chooseAction, r);
      EpisodeKeepsBetween(r, next, maxTrainSteps, eps0, ex);
      r := next;
    }
  }

  /** Between two episodes of `run`: a whole number of episodes taken, the
      budget overshot by less than one episode, and the last episode's
      loads left in the environment. */
  ghost predicate BetweenEpisodes(r: RunOutcome, maxTrainSteps: int, eps0: real, ex: Exploration)
  {
    && Recorded(r, eps0, ex) && WellShaped(r.env)
    && 0 <= r.totalSteps && r.totalSteps % SlotNum == 0
    && (maxTrainSteps <= 0 ==> r.totalSteps == 0)
    && (r.totalSteps > 0 ==> r.totalSteps < maxTrainSteps + SlotNum)
    && (r.totalSteps > 0 ==> r.env.done && forall j :: 0 <= j < ServerNum ==>
          r.env.serverLoad[j] == Count(r.actions[r.totalSteps - SlotNum..], j))
  }

  lemma EpisodeKeepsBetween(r: RunOutcome, next: RunOutcome, maxTrainSteps: int, eps0: real, ex: Exploration)
    requires BetweenEpisodes(r, maxTrainSteps, eps0, ex) && r.totalSteps < maxTrainSteps
    requires Recorded(next, eps0, ex) && WellShaped(next.env)
    requires next.totalSteps == r.totalSteps + SlotNum
    requires next.env.done
    requires forall j :: 0 <= j < ServerNum ==>
      next.env.serverLoad[j] == Count(next.actions[r.totalSteps..], j)
    ensures BetweenEpisodes(next, maxTrainSteps, eps0, ex)
  {
    assert next.totalSteps - SlotNum == r.totalSteps;
  }

  // ---------------------------------------------------------------------
  // The artifact

  /** `file.writelines(f"{item}\n" for item in action_list)`. */
  function ActionListText(items: seq<string>): (text: string)
    ensures |text| >= |items|
  {
    if |items| == 0 then "" else items[0] + "\n" + ActionListText(items[1..])
  }

  /** Index of the first line break, or the length when there is none. */
  function LineEnd(text: string): (k: nat)
    ensures k <= |text|
    ensures forall i :: 0 <= i < k ==> text[i] != '\n'
    ensures k < |text| ==> text[k] == '\n'
  {
    if |text| == 0 || text[0] == '\n' then 0 else 1 + LineEnd(text[1..])
  }

  /** The lines of a text, each without its terminating line break. */
  function SplitLines(text: string): seq<string>
    decreases |text|
  {
    if |text| == 0 then []
    else
      var k := LineEnd(text);
      [text[..k]] + (if k < |text| then SplitLines(text[k + 1..]) else [])
  }

  lemma {:induction false} LineEndAfterLine(item: string, rest: string)
    requires forall i :: 0 <= i < |item| ==> item[i] != '\n'
    ensures LineEnd(item + "\n" + rest) == |item|
    decreases |item|
  {
    if |item| > 0 {
      assert (item + "\n" + rest)[1..] == item[1..] + "\n" + rest;
      LineEndAfterLine(item[1..], rest);
    }
  }

  /** Reading the artifact back line by line gives the URL list, in order. */
  lemma {:induction false} ActionListRoundTrip(items: seq<string>)
    requires forall i :: 0 <= i < |items| ==> '\n' !in items[i]
    ensures SplitLines(ActionListText(items)) == items
  {
    if |items| > 0 {
      var item := items[0];
      var rest := ActionListText(items[1..]);
      var text := item + "\n" + rest;
      assert forall i :: 0 <= i < |item| ==> item[i] != '\n' by {
        forall i | 0 <= i < |item| ensures item[i] != '\n' {
          assert item[i] in item;
        }
      }
      LineEndAfterLine(item, rest);
      assert text[..|item|] == item;
      assert text[|item| + 1..] == rest;
      ActionListRoundTrip(items[1..]);
      assert items == [item] + items[1..];
    }
  }

  /** `get_strategy`: run the loop and write one URL per line. With the
      default budget of eight steps the artifact holds exactly eight lines,
      one per chunk slot of the single episode. */
  method GetStrategy(h: Hyper, chooseAction: Policy) returns (text: string, outcome: RunOutcome)
    requires ValidHyper(h)
    requires ValidPolicy(chooseAction)
    ensures SplitLines(text) == outcome.actionList
    ensures |outcome.actionList| == |outcome.actions|
    ensures forall i :: 0 <= i < |outcome.actionList| ==>
      0 <= outcome.actions[i] < |NodeServers| && outcome.actionList[i] == NodeServers[outcome.actions[i]]
    ensures Chosen(outcome, chooseAction, InitialEpsilon(h), ExplorationOf(h)) && Chained(outcome)
    ensures Observed(outcome)
    ensures forall line :: line in SplitLines(text) ==> line in NodeServers
    ensures |SplitLines(text)| >= h.maxTrainSteps && |SplitLines(text)| % SlotNum == 0
    ensures h == DefaultHyper ==> |SplitLines(text)| == SlotNum
  {
    outcome := Run(h, chooseAction);
    text := ActionListText(outcome.actionList);
    UrlListRoundTrip(outcome.actionList);
    if h == DefaultHyper {
      OneEpisode(outcome.totalSteps);
    }
  }

  /** A list of node URLs survives the artifact. */
  lemma UrlListRoundTrip(urls: seq<string>)
    requires forall i :: 0 <= i < |urls| ==> urls[i] in NodeServers
    ensures SplitLines(ActionListText(urls)) == urls
  {
    NodeServersSingleLine();
    ActionListRoundTrip(urls);
  }

  /** No node URL contains a line break. */
  lemma NodeServersSingleLine()
    ensures forall u :: u in NodeServers ==> '\n' !in u
  {
    UrlSingleLine(0);
    UrlSingleLine(1);
    UrlSingleLine(2);
  }

  lemma UrlSingleLine(k: nat)
    requires k < |NodeServers|
    ensures '\n' !in NodeServers[k]
  {
    var u := NodeServers[k];
    forall i | 0 <= i < |u|
      ensures u[i] != '\n'
    {
    }
  }

  /** A whole number of episodes below two is one episode. */
  lemma OneEpisode(total: int)
    requires SlotNum <= total < 2 * SlotNum && total % SlotNum == 0
    ensures total == SlotNum
  {
  }
}
