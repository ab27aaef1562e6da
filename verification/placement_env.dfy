/** The counting part of the placement environment `UCLB`
    (backend/env_uclb.py): the action decoding, the per-server load, the
    per-user remaining-chunk counter, the slot counter and the episode
    termination rule. Transmission rates, delays and rewards are not part
    of this model. */
module PlacementEnv {
  import opened ActionCodec
  import opened LoadBalance

  // Constants set by `UCLB.__init__`.
  const UserNum: nat := 1
  const ServerNum: nat := 3
  const DataSize: int := 8
  const ChunkSize: int := 1
  /** `int(data_size / chunk_size)` slots per episode. */
  const SlotNum: int := DataSize / ChunkSize
  /** `ceil(data_size / chunk_size)` chunks per user at the start of an episode. */
  const InitialChunks: int := (DataSize + ChunkSize - 1) / ChunkSize
  /** `server_num ** user_num` actions. */
  const NumActions: int := Pow(ServerNum, UserNum)
  /** Upper bound of every load entry of the observation box. */
  const LoadHigh: real := 1000000000.0

  /** The environment's mutable attributes that this model keeps.
      `remaining` stands for one numpy array that has three names in the
      source: `chunk_num`, `remain_chunk_num` and `obs_chunks_num_high` are
      all bound to it, so the upper bound of the observation box moves
      whenever a chunk is sent. */
  datatype Env = Env(
    remaining: seq<int>,
    serverLoad: seq<int>,
    stepNum: int,
    done: bool,
    episodeNum: int)

  predicate WellShaped(env: Env)
  {
    |env.remaining| == UserNum && |env.serverLoad| == ServerNum
  }

  /** Chunk counts and loads are never negative. */
  predicate NonNegative(env: Env)
  {
    && (forall i :: 0 <= i < |env.remaining| ==> env.remaining[i] >= 0)
    && (forall j :: 0 <= j < |env.serverLoad| ==> env.serverLoad[j] >= 0)
  }

  /** Start of an episode: every user has all its chunks, no server has load. */
  predicate Fresh(env: Env)
  {
    && WellShaped(env)
    && (forall i :: 0 <= i < UserNum ==> env.remaining[i] == InitialChunks)
    && (forall j :: 0 <= j < ServerNum ==> env.serverLoad[j] == 0)
    && env.stepNum == 0
    && !env.done
  }

  /** The state `UCLB.__init__` leaves behind. */
  function Init(): (env: Env)
    ensures Fresh(env) && NonNegative(env)
    ensures env.episodeNum == 0
  {
    Env(seq(UserNum, _ => InitialChunks), seq(ServerNum, _ => 0), 0, false, 0)
  }

  predicate AllZero(xs: seq<int>)
  {
    forall i :: 0 <= i < |xs| ==> xs[i] == 0
  }

  /** `remain_chunk_num[remain_chunk_num > 0] -= 1`. */
  function Decrement(xs: seq<int>): (r: seq<int>)
    ensures |r| == |xs|
    ensures forall i :: 0 <= i < |xs| && xs[i] > 0 ==> r[i] == xs[i] - 1
    ensures forall i :: 0 <= i < |xs| && xs[i] <= 0 ==> r[i] == xs[i]
  {
    seq(|xs|, i requires 0 <= i < |xs| => if xs[i] > 0 then xs[i] - 1 else xs[i])
  }

  datatype StepResult = StepResult(env: Env, state: seq<int>, mad: real, done: bool)

  /** `UCLB.step` without its rate, delay and reward numerics. The per-slot
      arrays indexed by `step_num` have `slot_num` entries, so a step is only
      defined while `step_num < slot_num`. */
  function Step(env: Env, action: int): (r: StepResult)
    requires WellShaped(env)
    requires 0 <= env.stepNum < SlotNum
    ensures WellShaped(r.env)
    ensures r.env.stepNum == env.stepNum + 1
    ensures forall i :: 0 <= i < UserNum ==>
      r.env.remaining[i] == (if env.remaining[i] > 0 then env.remaining[i] - 1 else env.remaining[i])
    ensures forall j :: 0 <= j < ServerNum ==> r.env.serverLoad[j] >= env.serverLoad[j]
    ensures Sum(r.env.serverLoad) == Sum(env.serverLoad) + ChunkSize * UserNum
    ensures NonNegative(env) ==> NonNegative(r.env)
    ensures r.state == r.env.remaining + r.env.serverLoad
    ensures r.done == r.env.done
    ensures r.done <==> env.done || AllZero(r.env.remaining) || env.stepNum >= SlotNum - 1
    ensures r.mad >= 0.0
  {
    var sel := Decode(action, UserNum, ServerNum);
    var lm := GetLoadMad(env.serverLoad, sel, ChunkSize);
    AddLoadMonotone(env.serverLoad, sel, ChunkSize);
    var remaining := Decrement(env.remaining);
    var finished := AllZero(remaining) || env.stepNum >= SlotNum - 1;
    var env' := Env(
      remaining,
      lm.load,
      env.stepNum + 1,
      env.done || finished,
      if finished then env.episodeNum + 1 else env.episodeNum);
    StepResult(env', remaining + lm.load, lm.mad, env'.done)
  }

  datatype ResetResult = ResetResult(env: Env, obs: seq<real>)

  /** `UCLB.reset`. The returned observation is not the reset state but the
      midpoint of the observation box, computed BEFORE the counters are
      restored; because the box's upper chunk bound is the remaining-chunk
      array itself, its first entries are half of the remaining counts the
      previous episode left behind. */
  function Reset(env: Env): (r: ResetResult)
    requires WellShaped(env)
    ensures Fresh(r.env)
    ensures r.env.episodeNum == env.episodeNum
    ensures |r.obs| == UserNum + ServerNum
    ensures forall i :: 0 <= i < UserNum ==> r.obs[i] == env.remaining[i] as real / 2.0
    ensures forall j :: UserNum <= j < |r.obs| ==> r.obs[j] == LoadHigh / 2.0
  {
    var chunksMid := seq(|env.remaining|, i requires 0 <= i < |env.remaining| =>
      (0.0 + env.remaining[i] as real) / 2.0);
    var loadMid := seq(ServerNum, _ => (0.0 + LoadHigh) / 2.0);
    var env' := env.(
      remaining := seq(UserNum, _ => InitialChunks),
      serverLoad := seq(ServerNum, _ => 0),
      stepNum := 0,
      done := false);
    ResetResult(env', chunksMid + loadMid)
  }

  // ---------------------------------------------------------------------
  // Episodes

  /** The environment after the given actions, one step each. */
  function RunSteps(env: Env, actions: seq<int>): (e: Env)
    requires WellShaped(env)
    requires 0 <= env.stepNum && env.stepNum + |actions| <= SlotNum
    ensures WellShaped(e)
    ensures e.stepNum == env.stepNum + |actions|
    decreases |actions|
  {
    if |actions| == 0 then env
    else RunSteps(Step(env, actions[0]).env, actions[1..])
  }

  /** From the start of an episode, whatever the actions, k steps leave
      every user with `InitialChunks - k` chunks, and the episode is done
      exactly after the `SlotNum`-th step: with 8 chunks and 8 slots the
      two stopping conditions first hold together, on the eighth step. */
  lemma {:induction false} EpisodeProgress(env: Env, actions: seq<int>)
    requires Fresh(env)
    requires |actions| <= SlotNum
    ensures forall i :: 0 <= i < UserNum ==>
      RunSteps(env, actions).remaining[i] == InitialChunks - |actions|
    ensures RunSteps(env, actions).done <==> |actions| == SlotNum
  {
    var k := |actions|;
    if k == 0 {
      assert SlotNum == 8;
    } else {
      var prefix := actions[..k - 1];
      var before := RunSteps(env, prefix);
      assert !before.done && forall i :: 0 <= i < UserNum ==>
        before.remaining[i] == InitialChunks - before.stepNum by {
        EpisodeProgress(env, prefix);
      }
      assert RunSteps(env, actions) == Step(before, actions[k - 1]).env by {
        RunStepsSnoc(env, prefix, actions[k - 1]);
        assert prefix + [actions[k - 1]] == actions;
      }
      StepCounters(before, actions[k - 1]);
    }
  }

  /** Within an episode one step sends one more chunk, and finishes the
      episode exactly on the last slot. */
  lemma StepCounters(env: Env, action: int)
    requires WellShaped(env) && 0 <= env.stepNum < SlotNum && !env.done
    requires forall i :: 0 <= i < UserNum ==> env.remaining[i] == InitialChunks - env.stepNum
    ensures forall i :: 0 <= i < UserNum ==>
      Step(env, action).env.remaining[i] == InitialChunks - (env.stepNum + 1)
    ensures Step(env, action).done <==> env.stepNum + 1 == SlotNum
  {
    var stepped := Step(env, action);
    assert SlotNum == 8 && InitialChunks == 8;
    assert stepped.env.remaining[0] == InitialChunks - (env.stepNum + 1);
    assert AllZero(stepped.env.remaining) <==> env.stepNum + 1 == SlotNum;
  }

  lemma {:induction false} RunStepsSnoc(env: Env, actions: seq<int>, a: int)
    requires WellShaped(env)
    requires 0 <= env.stepNum && env.stepNum + |actions| + 1 <= SlotNum
    ensures RunSteps(env, actions + [a]) == Step(RunSteps(env, actions), a).env
    decreases |actions|
  {
    if |actions| > 0 {
      assert (actions + [a])[1..] == actions[1..] + [a];
      RunStepsSnoc(Step(env, actions[0]).env, actions[1..], a);
    }
  }

  /** With one user, action a (0 ..= 2) charges exactly one chunk to server
      a (0-based) and leaves the others alone. */
  lemma StepChargesChosenServer(env: Env, action: int)
    requires WellShaped(env)
    requires 0 <= env.stepNum < SlotNum
    requires 0 <= action < NumActions
    ensures Decode(action, UserNum, ServerNum) == [action + 1]
    ensures Step(env, action).env.serverLoad
         == env.serverLoad[action := env.serverLoad[action] + ChunkSize]
  {
    var sel := Decode(action, UserNum, ServerNum);
    assert sel == [action + 1];
    var l := Step(env, action).env.serverLoad;
    var expected := env.serverLoad[action := env.serverLoad[action] + ChunkSize];
    forall j | 0 <= j < ServerNum
      ensures l[j] == expected[j]
    {
      AddLoadCharges(env.serverLoad, sel, ChunkSize, j);
      assert Count(sel, j + 1) == (if j == action then 1 else 0) by {
        assert sel[1..] == [];
      }
    }
  }

  /** The observation `reset` hands out: [4, 5e8, 5e8, 5e8] on the first
      episode, [0, 5e8, 5e8, 5e8] after a full episode, never the state the
      environment is actually reset to. */
  lemma ResetObservationExamples(actions: seq<int>)
    requires |actions| == SlotNum
    ensures Reset(Init()).obs == [4.0, 500000000.0, 500000000.0, 500000000.0]
    ensures Reset(RunSteps(Reset(Init()).env, actions)).obs
         == [0.0, 500000000.0, 500000000.0, 500000000.0]
    ensures Reset(Init()).obs != [InitialChunks as real, 0.0, 0.0, 0.0]
  {
    ResetObservation(Init());
    var last := RunSteps(Reset(Init()).env, actions);
    assert last.remaining[0] == 0 by {
      EpisodeProgress(Reset(Init()).env, actions);
    }
    ResetObservation(last);
  }

  /** The observation `reset` returns depends only on the remaining-chunk
      count it finds: half of it, then the midpoint of every load bound. */
  lemma ResetObservation(env: Env)
    requires WellShaped(env)
    ensures Reset(env).obs == [env.remaining[0] as real / 2.0, LoadHigh / 2.0, LoadHigh / 2.0, LoadHigh / 2.0]
  {
    var obs := Reset(env).obs;
    assert obs[0] == env.remaining[0] as real / 2.0;
    assert obs[1] == obs[2] == obs[3] == LoadHigh / 2.0;
  }
}
