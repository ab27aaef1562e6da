# Chunked upload with learned placement: a Dafny model

The system splits a file into chunks. A reinforcement-learning policy
decides which of three storage nodes receives each chunk, and a small Flask
server tracks the uploads and merges the chunks back into the file. This
project models three parts of it and proves properties about them.

- **Placement environment** (`backend/env_uclb.py`, module `PlacementEnv`,
  with `ActionCodec` and `LoadBalance`):
  - the mixed-radix decoding of an action index into one server per user;
  - the per-server load and its mean absolute deviation (MAD);
  - the per-user remaining-chunk counter, the slot counter and the episode
    stopping rule;
  - the observation `reset` returns. This goes through the aliased numpy
    array that is at once `chunk_num`, `remain_chunk_num` and
    `obs_chunks_num_high`.
- **Runner** (`backend/rainbow_selection.py`, module `Runner`):
  - the algorithm name built from the five Rainbow flags;
  - the epsilon schedule;
  - the outer and inner loops of `run`, with the agent as a function
    parameter;
  - the `action_list.txt` artifact with one node URL per line.
- **Upload server** (`backend/server.py`, module `UploadServer`): the
  handlers `upload_metadata`, `upload_chunk` and `complete_upload` as pure
  transitions over four stores:
  - the in-process registry loaded at start-up;
  - the registry in `metadata.json`;
  - the chunk directory, keyed by the pair (file id, chunk index);
  - the directory of merged files.

The metadata handler writes its in-process registry over `metadata.json`.
The other two handlers re-read `metadata.json` into a local variable.
Keeping the two registries apart is what exposes the finding below.

`ChunkNames` models how chunk files are named. `Wrappers` provides `Option`.

Python's `%` and `//` with a positive divisor agree with Dafny's Euclidean
`%` and `/`. `Decode` is therefore defined and proved for every integer
action, negative ones included. Loads are integers because they grow by the
integer chunk size. The MAD is a `real`: numpy's float64 rounding is not
modelled.

## Model

| member | source | states |
|---|---|---|
| ActionCodec.Pow | backend/env_uclb.py:52 | `server_num ** user_num` is at least 1, and at least the base when there is a user |
| ActionCodec.Decode | backend/env_uclb.py:72-86 | the decoded selection has one entry per user and each entry is a server number in 1..server_num, for any integer action |
| ActionCodec.Encode | backend/env_uclb.py:72-86 | the inverse digit encoding maps every selection to an action in [0, server_num ** user_num) |
| ActionCodec.DecodeEncode | backend/env_uclb.py:72-86 | decoding the encoding of any valid selection gives the selection back |
| ActionCodec.EncodeDecode | backend/env_uclb.py:82-84 | encoding the decoded selection gives the action modulo server_num ** user_num |
| ActionCodec.DecodeRoundTrip | backend/env_uclb.py:72-86 | every action in the action space is recovered from its selection |
| ActionCodec.DecodeIgnoresHighDigits | backend/env_uclb.py:82-84 | actions that agree modulo server_num ** user_num decode to the same selection |
| ActionCodec.DecodeInjective | backend/env_uclb.py:72-86 | distinct actions in the action space decode to distinct selections |
| ActionCodec.DecodeExamples | backend/env_uclb.py:83 | with one user and three servers, actions 0 and 2 pick servers 1 and 3, and 5 wraps to server 3 |
| LoadBalance.AddLoad | backend/env_uclb.py:106-107 | charging the chosen servers keeps one load per server |
| LoadBalance.AddLoadCharges | backend/env_uclb.py:106-107 | server j gains chunk_size once for every user that chose server j+1 |
| LoadBalance.AddLoadTotal | backend/env_uclb.py:106-107 | the total load rises by chunk_size times the number of users |
| LoadBalance.AddLoadMonotone | backend/env_uclb.py:106-107 | no load decreases, and a server nobody chose keeps its load |
| LoadBalance.Mad | backend/env_uclb.py:109 | the mean absolute deviation is never negative |
| LoadBalance.GetLoadMad | backend/env_uclb.py:105-110 | server j's returned load is its old load plus chunk_size for every user that chose server j+1, so the total rises by chunk_size per user; the returned MAD is the mean absolute deviation of the returned loads, hence non-negative |
| LoadBalance.MadZeroIffBalanced | backend/env_uclb.py:109 | the MAD is zero exactly when all servers carry the same load |
| LoadBalance.MadExample | backend/env_uclb.py:109 | loads [1,2,3] have MAD 2/3 and equal loads have MAD 0 |
| PlacementEnv.Init | backend/env_uclb.py:14-31 | construction leaves every user with ceil(data_size/chunk_size) chunks, zero loads, step 0 and not done |
| PlacementEnv.Step | backend/env_uclb.py:113-161 | a step decrements each positive remaining count by one and leaves zeros alone. It raises the total load by chunk_size per user without lowering any load and returns remaining ++ loads. done is sticky and otherwise set iff all counts reach 0 or the last slot is used. The step counter advances by one |
| PlacementEnv.Reset | backend/env_uclb.py:163-183 | reset restores the start-of-episode state but returns the box midpoint: half of the pre-reset remaining counts, then 5e8 per server |
| PlacementEnv.RunSteps | backend/env_uclb.py:113-161 | k steps advance the step counter by k |
| PlacementEnv.Decrement | backend/env_uclb.py:134 | every positive remaining count drops by one and every other count stays as it is |
| PlacementEnv.EpisodeProgress | backend/env_uclb.py:134-143 | from a fresh state, whatever the actions, k steps leave 8-k chunks, and the episode is done exactly after the eighth step |
| PlacementEnv.StepChargesChosenServer | backend/env_uclb.py:105-124 | with one user, action a charges one chunk to server a (0-based) and leaves the other servers unchanged |
| PlacementEnv.ResetObservation | backend/env_uclb.py:163-167 | the observation reset returns is half the remaining count it finds, then 5e8 for each server, whatever the loads |
| PlacementEnv.ResetObservationExamples | backend/env_uclb.py:163-167 | the first reset returns [4, 5e8, 5e8, 5e8], a reset after a full episode returns [0, 5e8, 5e8, 5e8], never the reset state |
| Runner.AlgorithmName | backend/rainbow_selection.py:51-64 | the algorithm name is at least "dqn" long |
| Runner.AlgorithmNameRoundTrip | backend/rainbow_selection.py:51-64 | the five flags can be read back from the algorithm name |
| Runner.AlgorithmNameInjective | backend/rainbow_selection.py:51-64 | different flag combinations give different names |
| Runner.RainbowName | backend/rainbow_selection.py:52-53 | the name is "rainbow_dqn" exactly when all five flags are on, and starts with "dqn" otherwise |
| Runner.ExplorationOf | backend/rainbow_selection.py:69-74 | a noisy network means no decay; otherwise the floor is epsilon_min and epsilon_decay_steps steps of the decay spend exactly epsilon_init - epsilon_min, and the decay is non-negative when epsilon_init >= epsilon_min and epsilon_decay_steps > 0 (the hyperparameters must be valid: without a noisy network, epsilon_decay_steps > 0) |
| Runner.NextEpsilon | backend/rainbow_selection.py:88-89 | one step keeps epsilon under a noisy network; otherwise the new epsilon is at least the floor, and it is not above the old one when the decay is non-negative and the old epsilon is at least the floor |
| Runner.EpsilonClosedForm | backend/rainbow_selection.py:88-89 | after n steps, epsilon is max(epsilon_init - n * decay, epsilon_min) |
| Runner.EpsilonSchedule | backend/rainbow_selection.py:69-89 | without a noisy network, epsilon stays in [epsilon_min, epsilon_init] and never rises |
| Runner.EpsilonReachesFloor | backend/rainbow_selection.py:72-89 | epsilon reaches its floor after exactly epsilon_decay_steps steps |
| Runner.NoisyEpsilon | backend/rainbow_selection.py:69-70 | with a noisy network epsilon is 0 and stays 0 |
| Runner.Terminal | backend/rainbow_selection.py:91 | a step is terminal only when done, never when episode_steps equals episode_limit, and otherwise exactly when done |
| Runner.RecordStep | backend/rainbow_selection.py:83-93 | one recorded step appends the chosen action and its node URL, counts one more step, decays epsilon once, and keeps the stepped environment |
| Runner.ChosenSnoc | backend/rainbow_selection.py:82-93 | appending a transition whose action is the agent's answer to the stored history keeps every recorded action the agent's |
| Runner.ChainedSnoc | backend/rainbow_selection.py:78-94 | appending a transition that starts from the previous next state, or from the reset observation at an episode start, keeps the chain |
| Runner.ObservedSnoc | backend/rainbow_selection.py:84-93 | the observation after a step depends only on the actions up to that step, so recording a later step keeps every earlier next state equal to the observation the environment returned |
| Runner.StepObservationOf | backend/env_uclb.py:124-135 | inside an episode, the state a step returns is the user's remaining chunks after the episode's sends so far, then each server's count of the episode's actions that chose it |
| Runner.AgentStepKeeps | backend/rainbow_selection.py:82-94 | asking the agent and recording its answer keeps the actions the agent's and the observations chained, and the loop then holds the step's next state |
| Runner.InnerStep | backend/rainbow_selection.py:82-94 | one inner iteration appends exactly the agent's choice for the stored history, the held observation and the current epsilon, uses one more slot, and keeps the episode bookkeeping. The observation handed on is the state env.step returned for that action, and every recorded next state stays the environment's observation |
| Runner.RecordStepKeepsRecord | backend/rainbow_selection.py:82-94 | one inner iteration keeps one URL, action and transition per step, terminal equal to done, and epsilon decayed once per step |
| PlacementEnv.StepCounters | backend/env_uclb.py:134-143 | inside an episode a step sends one more chunk per user and is done exactly on the last slot |
| Runner.StepLoads | backend/env_uclb.py:105-107 | when the loads count the episode's actions per server, they still do after one more step |
| Runner.StepInEpisode | backend/rainbow_selection.py:81-85 | inside an episode each step leaves 8-k chunks, is done only at the eighth step, and per-server loads count the episode's actions |
| Runner.EpisodeStepKeeps | backend/rainbow_selection.py:81-94 | one inner iteration keeps the run record and the episode bookkeeping, and leaves earlier episodes' actions untouched |
| Runner.Episode | backend/rainbow_selection.py:78-97 | one episode takes exactly eight steps whatever the policy, ends done with no chunks left, leaves loads equal to the per-server action counts, and every action it records is the agent's choice, with each observation the previous step's next state or the reset observation. Every next state is the environment's observation: chunks left, then the episode's per-server action counts |
| Runner.EpisodeKeepsBetween | backend/rainbow_selection.py:77-97 | the between-episodes bookkeeping survives one more episode |
| Runner.Run | backend/rainbow_selection.py:76-97 | the loop runs whole episodes to at least max_train_steps and less than one episode past it. Action i appends NODE_SERVERS[action i]. terminal equals done, done falls on every eighth step, and epsilon follows the schedule. Every action i is the agent's answer to the first i transitions, the observation of transition i and the epsilon after i steps; each observation is the previous next state, or the reset observation at an episode start. The next state of transition i is what env.step returned: the chunks left after step i mod 8 + 1 of the episode, then the per-server counts of the episode's actions up to i |
| Runner.Train | backend/rainbow_selection.py:77-97 | the outer loop runs whole episodes until the step count reaches max_train_steps, overshooting by less than one episode, and every episode keeps the actions the agent's, the observations chained and the next states the environment's |
| Runner.ActionListText | backend/rainbow_selection.py:133 | the artifact holds at least one character (the line break) per URL |
| Runner.ActionListRoundTrip | backend/rainbow_selection.py:132-133 | splitting action_list.txt into lines gives back the URL list in order |
| Runner.UrlListRoundTrip | backend/rainbow_selection.py:132-133 | splitting the artifact written from a list of node URLs gives that list back |
| Runner.GetStrategy | backend/rainbow_selection.py:99-133 | the artifact's lines are exactly the run's URL list, URL i is the node of action i, every action is the agent's choice, and every next state is the environment's observation; every line is one of the three node URLs, and there are whole episodes of lines, at least max_train_steps; with the defaults exactly eight lines |
| ChunkNames.NatToString | backend/server.py:167 | the decimal text of a natural number is non-empty and made of digits only |
| ChunkNames.IntToString | backend/server.py:167 | `str(i)` is non-empty, contains no underscore, and starts with a minus sign exactly when i is negative |
| ChunkNames.NatRoundTrip | backend/server.py:166-167 | reading the digits of a natural number back gives the number |
| ChunkNames.IntRoundTrip | backend/server.py:166-167 | `int(str(i)) == i` for every integer, negative ones included |
| ChunkNames.IntToStringInjective | backend/server.py:167 | different integers have different decimal texts |
| ChunkNames.ChunkFileName | backend/server.py:167 | a chunk file name starts with its file id and continues past the "_chunk_" infix |
| ChunkNames.ChunkFileNameInjective | backend/server.py:167 | a chunk file name determines both the file id and the chunk index, whatever the id contains |
| ChunkNames.ChunkFileNameExamples | backend/server.py:167 | chunk 0, 12 and -3 of "f1" are stored as "f1_chunk_0", "f1_chunk_12" and "f1_chunk_-3" |
| UploadServer.ChunkPathsDistinct | backend/server.py:302 | distinct (file id, index) keys give distinct chunk file name strings |
| UploadServer.Startup | backend/server.py:10-18 | at start-up the in-process registry equals metadata.json |
| UploadServer.UploadMetadata | backend/server.py:34-56 | an absent or empty id or name, or an absent total, is refused with nothing changed. Otherwise the record is (name, total, []), overwriting any earlier one, and the whole in-process registry is written over metadata.json |
| UploadServer.RecordIndex | backend/server.py:196-198 | the index is recorded once: a known index leaves the list alone, a new one is appended |
| UploadServer.UploadChunk | backend/server.py:158-214 | missing data is refused with nothing changed. Otherwise the chunk is stored. The metadata.json record is created if absent (named after the id, total 0), the index is appended to its list when it is new, the list is left alone when it is already there, and a positive form total replaces the total. No other record and not the in-process registry changes |
| UploadServer.MissingChunks | backend/server.py:295 | the missing set is exactly the indices in [0, total) not recorded |
| UploadServer.FirstAbsentChunk | backend/server.py:301-305 | the reported chunk is the smallest index in range whose file does not exist; none reported means all exist |
| UploadServer.RemoveChunks | backend/server.py:311-315 | merging deletes exactly the chunks 0..total-1 of the file and keeps every other chunk unchanged |
| UploadServer.CompleteUpload | backend/server.py:255-331 | the reply is decided in order: an unknown id is refused; otherwise any unrecorded index below the total gives exactly the set of those indices; otherwise any absent chunk file gives the smallest absent index; otherwise the upload succeeds. Every refusal changes nothing. Success writes the in-order merge under the record's name, deletes those chunks and the record, and leaves the in-process registry alone |
| UploadServer.RecordIndexNoDuplicates | backend/server.py:196-198 | recording an index keeps the list duplicate-free |
| UploadServer.HandlersKeepDuplicateFree | backend/server.py:193-198 | no handler ever makes a recorded list contain an index twice |
| UploadServer.UploadChunkIdempotent | backend/server.py:166-203 | sending the same chunk request twice leaves every store as after the first time |
| UploadServer.CompleteUploadSucceedsIff | backend/server.py:277-305 | completion succeeds exactly when the record exists, every index below its total is recorded, and every one of those chunk files exists |
| UploadServer.CompleteUploadKeepsOtherChunks | backend/server.py:308-326 | a successful completion keeps other files' chunks, and this file's chunks outside [0, total), unchanged |
| UploadServer.MergeChunks | backend/server.py:310-314 | merging an empty range gives no bytes, and a non-empty merge starts with the bytes of its first chunk |
| UploadServer.MergeAppend | backend/server.py:311-314 | the merged file ends with the last chunk: chunks are appended in index order |
| UploadServer.MergeSplit | backend/server.py:311-314 | merging a range is merging its two halves in order |
| UploadServer.MergeLength | backend/server.py:311-314 | merging n chunks of equal size s gives n*s bytes |
| UploadServer.MergeUniform | backend/server.py:308-315 | with equal-size chunks, bytes [j*s, (j+1)*s) of the merged file are chunk j |
| UploadServer.TwoOfThreeState | backend/server.py:44-203 | after registering a 3-chunk file and sending chunks 0 and 2, the record lists [0, 2]; after chunk 1 it lists [0, 2, 1] |
| UploadServer.ThreeChunkUploadEarly | backend/server.py:295-298 | completing after chunks 0 and 2 reports exactly {1} missing and changes nothing |
| UploadServer.ThreeChunkUploadDone | backend/server.py:308-331 | completing after all three writes "AAAABBBBCCCC" and leaves no chunks and no record |
| UploadServer.CompleteThreeChunks | backend/server.py:301-326 | with all three chunks stored and recorded out of order, the merge is still in index order |
| UploadServer.ThreeChunkRemoved | backend/server.py:315 | merging a three-chunk file removes all three chunk files |
| UploadServer.UnregisteredChunkCompletesEmpty | backend/server.py:184-190 | a chunk for an unregistered id creates a record of total 0, whose completion writes an empty file and leaves the chunk behind |
| UploadServer.StaleRegistryLosesUpload | backend/server.py:44-52 | registering a second file erases the first file's recorded chunk from metadata.json, so its completion reports chunk 0 missing |
| UploadServer.UploadMetadataOnDisk | backend/server.py:44-52 | the corrected metadata handler adds the record to metadata.json and changes no other record |
| UploadServer.RegisterOnDiskKeepsOtherCompletions | backend/server.py:277-305 | with the corrected handler, registering another file never changes how a completion turns out |
| UploadServer.RegisterOnDiskKeepsUpload | backend/server.py:44-52 | with the corrected handler the first file of the finding still completes |

## Left out

- HTTP, JSON and form parsing (Flask, CORS, `request.json`, `request.files`):
  - each request field is an `Option`, and the form total is an integer defaulting to 0;
  - the `ValueError` of `int()` on a non-numeric index or total is not modelled;
  - JSON totals that are not integers are not modelled.
- File-system failures: unreadable or undecodable `metadata.json`, failed writes, a merge that throws, and the 500 reply when `metadata.json` is absent at completion. The model's stores always exist and every write succeeds.
- A record without `uploaded_chunks`, or with a non-list value, is not modelled. Every record the handlers themselves write has the list (backend/server.py:44-48, 186-194).
- Chunk files are named `"{fileId}_chunk_{i}"` inside the chunk directory. The model keys them by the pair (id, index); `ChunkPathsDistinct` proves that distinct pairs give distinct name strings, not distinct files. Not modelled: how the file system resolves a name. Distinct strings can name one file: ids such as "./x" and "x" or "a//b" and "a/b", ids that differ only in letter case on a case-insensitive file system, and the same for merged file names. Also not modelled: an absolute or `..` id or file name, which escapes the directory, and merged file names that collide with chunk or metadata paths.
- Concurrency: handlers are modelled as atomic. Interleaved requests would add races the model does not cover.
- Commented-out handler versions, the `/` route, the root `server.py` and the frontend are not part of this model.
- Transmission rates, delays, channel data, `delay_coff`, rewards, per-slot and per-episode averages, and printing in `UCLB` are not modelled. They are floating-point numerics that do not change the environment's counters or loads. The reward does reach the agent through the replay buffer and `agent.learn`, and so does influence later choices; the model covers that by letting the policy depend on every stored transition, and the run's contract ties every recorded action to the policy's answer.
- The DQN agent, replay buffers, learning step, seeding and torch weight loading are not modelled. The agent is an arbitrary function of the transitions stored so far, the observation and epsilon, returning an action in 0..2.
- The command-line parser is not modelled. Note that argparse's `type=bool` turns any non-empty string, "False" included, into true. The model takes the flags as given.
- PlacementEnv.Step: requires `step_num < slot_num` instead of modelling the `IndexError` the per-slot arrays raise past the last slot.
- LoadBalance.AddLoad: requires every choice to be in 1..server_num. Python would accept 0 and charge the last server through index -1. `Decode` only produces 1..server_num, so this case never arises from the environment.
- Runner.Run: the transitions record state, action, next state, terminal and done, but not the reward. The policy is a deterministic function of the transition history, the observation and epsilon; the rewards and the agent's own randomness are not among its inputs.
- Runner.Run: requires `ValidHyper`, which excludes `use_noisy` false together with `epsilon_decay_steps` 0 (for example `--use_noisy "" --epsilon_decay_steps 0`). There `Runner.__init__` raises `ZeroDivisionError` at backend/rainbow_selection.py:74 before any step; the model does not model that error.
- Runner.GetStrategy: requires `ValidHyper` for the same reason, so the `ZeroDivisionError` of backend/rainbow_selection.py:74 with `epsilon_decay_steps` 0 and no noisy network is not modelled.
- Runner.EpsilonClosedForm: epsilon is a Python float, but the model uses exact reals. With float64 rounding the repeated subtraction can differ from `epsilon_init - n * decay`; for example 0.5 minus three steps of (0.5 - 0.1) / 3 leaves 0.10000000000000003, not 0.1.
- Runner.EpsilonReachesFloor: holds for exact reals. Under float64 rounding the floor can be reached one step later than `epsilon_decay_steps`, as in the example above, where it is reached on step 4 rather than step 3.

## Findings

| source | as written | input that shows it | evidently intended | confidence | as-written member | corrected member |
|---|---|---|---|---|---|---|
| backend/server.py:44-52 | `upload_metadata` writes the start-up copy of the registry over `metadata.json`. That copy never sees the chunk records the other handlers keep in `metadata.json` | register "a" with 1 chunk, send chunk 0 of "a", register "b", complete "a": the reply is "Missing some chunks" [0] although the chunk is stored | add the record to the current `metadata.json`, as the other two handlers re-read it, so other files' progress is kept | not executed; high | UploadServer.StaleRegistryLosesUpload | UploadServer.UploadMetadataOnDisk |
