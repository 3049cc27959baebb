# conversational-ai, modelled in Dafny

This repository is a chatbot built on a fine-tuned T5 model. Its core is the
string and sequence logic around the model. Each part has a module here:

| Part | Source | Module |
|---|---|---|
| Interactive chat session | `conversational_ai/chat.py` | `Chat` |
| Older chat script | `chat.py` | `LegacyChat` |
| Inference gateway | `conversational_ai/t5_model.py` | `T5Gateway` |
| Older wrapper class and gin `setdefault` | `models.py` | `Models`, `Gin` |
| Conversation rendering | `conversational_ai/dataset/utils.py` | `ConvoUtils` |
| Compounding training examples and their split | `tasks.py` | `Tasks` |
| TSV training lines and the train/validation files | `dataset.py` | `PrepDataset` |
| GPU factor pairs, mesh shapes and device names | `train.py` | `Train` |
| Model/data parallelism and GPU selection | `model.py` | `Mesh` |

What the chat session does:
- The session keeps a history of turns.
- It builds a prompt from a window of that history.
- It sends the prompt to the model and post-processes the model's predictions into a reply.
- It saves the transcript.

What the inference gateway does:
- It resolves the checkpoint step.
- It binds gin parameters.
- It writes the prompts to a file.
- It flattens, filters and decodes the output files.

Shared Python semantics live in their own modules:
- `PyStr`: `find`, `split`, `join`, `replace`, `strip`, `lower`, and the filtering of blank items.
- `PySlice`: slices with negative or out-of-range bounds.
- `Numerals`: `str(int)` and `int(str)`.
- `Py`: the values and exceptions that cross the model's boundary.
- `Layout`: the mesh-shape string, device names and environment keyword arguments, which `train.py` and `model.py` share.

Two helpers come from outside the repository, and `Chitchat` states each by its documented behaviour:
- `chitchat_dataset.prepend_cycle`: item `i` gets `prefixes[i % len(prefixes)]` in front.
- t5's `_get_latest_checkpoint_from_dir`: the largest step saved in the directory.

Code that changes state is modelled as classes or as methods with loops:
- `Chat.ChatSession`
- `LegacyChat.Session`
- `Gin.Config`
- `Models.T5`
- `Mesh.TrainedModel`
- the loops of `PrepDataset.PrepConvo`, `PrepDataset.ExtendAll` and `Train.Factors`

Each method is proved against a function of its inputs:
- `Chat.Converse` gives a whole console session.
- `PrepDataset.PrepLines` gives the lines of one conversation.
- `Train.FactorPairs` gives what `_factors` yields.

Other effects become parameters:
- The model and the console are parameters: a predictor function and a sequence of console events.
  - The predictor is also given the number of turns so far: both chat scripts look up the latest checkpoint again on every call, so the same prompt may get a different answer later in a session.
- The gin configuration text, `json.loads`, `random.shuffle` and the environment are parameters too.

Edge cases of `conversational_ai/chat.py` that the model keeps as the code has them:
- **Empty reply.** An empty post-processed reply is appended to the history as it is (lines 59-62).
- **Non-positive `context_window`.** Line 53 slices `history[-k:]` for any `k`.
  - A window of 0 is the whole history (`Chat.WindowZeroIsWhole`).
  - A negative window drops the first `-k` turns (`Chat.WindowNegativeDropsFirst`).
- **`test_postprocess_response`.** `conversational_ai/test_chat.py` does not match the code it tests.
  - It imports `_postprocess_response`, a function `conversational_ai/chat.py` does not define.
  - Its cases at lines 10-14, 16 and 22-26 expect a cut at `speaker2>`.
  - With the prefixes of line 28, the code cuts at `speaker1>` instead.
  - The model follows the code. Only the cases at lines 15 and 17-21 agree with it, and both are proved: `Chat.PostprocessKeepsPlainReply` and `Chat.PostprocessCutsHumanTurn`.

## Model

| member | source | states |
|---|---|---|
| PySlice.Bound | conversational_ai/chat.py:53 | a slice bound always lands inside the sequence |
| Chat.WindowKeepsLast | conversational_ai/chat.py:53 | `history[-k:]` for `k > 0` is the last `min(k, len)` turns, in order |
| Chat.WindowZeroIsWhole | conversational_ai/chat.py:53 | `history[-0:]` is the whole history |
| Chat.WindowNegativeDropsFirst | conversational_ai/chat.py:53 | a negative window drops the first `-k` turns |
| Chat.PromptIsConvoAsStr | conversational_ai/chat.py:53-54 | the one prompt is the window rendered as `convo_as_str` renders it: conversation prefix, cyclic turn prefixes, turns joined by the turn suffix |
| Chat.PrefixByWindowPosition | conversational_ai/chat.py:53 | prefixes go by position in the window: an even window of an odd history starts with a model turn that carries the human prefix |
| Chat.Postprocess | conversational_ai/chat.py:57-60 | no prefixes or only one raise IndexError; an empty human prefix raises ValueError (empty separator); otherwise a reply comes back, with no whitespace at either end |
| Chat.PostprocessCutsAtHumanPrefix | conversational_ai/chat.py:57-60 | the reply is made from the prefix of the joined predictions that ends where the human prefix first occurs, with every model prefix removed, stripped |
| Chat.PostprocessWithoutMarkers | conversational_ai/chat.py:57-60 | joined predictions holding neither prefix are only stripped |
| Chat.PostprocessCutAt | conversational_ai/chat.py:59-60 | for one prediction whose human prefix first occurs at `i`, the reply is `t[:i]` without model prefixes, stripped |
| Chat.PlainSpeakerReply | conversational_ai/chat.py:57-60 | with the speaker prefixes, a stripped reply without `>` comes back unchanged |
| Chat.PostprocessKeepsPlainReply | conversational_ai/test_chat.py:15 | `"I don't think so. Dang it."` comes back unchanged |
| Chat.PostprocessModelTurn | conversational_ai/chat.py:59-60 | model prefix, padded reply, human prefix and more give exactly the reply |
| Chat.PostprocessCutAfter | conversational_ai/chat.py:59 | when the human prefix first occurs right after `before`, the reply is `before` without model prefixes, stripped |
| Chat.CleanModelTurn | conversational_ai/chat.py:60 | removing the model prefix from a padded reply and stripping leaves the reply |
| Chat.SpeakerReplyCut | conversational_ai/chat.py:59-60 | with the speaker prefixes, `speaker2> X speaker1>...` gives `X` for any stripped `X` without the digits 1 and 2 |
| Chat.PostprocessCutsHumanTurn | conversational_ai/test_chat.py:17-21 | `speaker2> So what a cool-me-do would you say that? speaker1> I'm not...` gives the sentence between the prefixes |
| Chat.ReplyMayHoldHumanPrefix | conversational_ai/chat.py:59-60 | removing the model prefix after the cut can join the two halves of a human prefix: the reply may contain the human prefix |
| Chat.ReplyMayHoldHumanPrefixExample | conversational_ai/chat.py:59-60 | `"aXb"` with prefixes `["ab", "X"]` gives the reply `"ab"` |
| Chat.RespondAnswers | conversational_ai/chat.py:55-60 | for any history, Ctrl-C and exceptions of `predict` pass through; an empty human prefix raises ValueError and a single prefix IndexError; otherwise the reply is stripped and is the joined predictions cut before the first human prefix, with every model prefix removed |
| Chat.Exchange | conversational_ai/chat.py:53-60 | the one prompt sent, to the model as it stands after the turns so far, is the window rendered by `convo_as_str` with an empty suffix; the response answers the prediction as `Chat.RespondAnswers` states |
| Chat.ConverseGrows | conversational_ai/chat.py:49-62 | the history is never cut; it only grows, by at most two turns per console event |
| Chat.ConverseInterrupt | conversational_ai/chat.py:67-68 | Ctrl-C at the prompt returns the history as it stands |
| Chat.ConverseReplyStep | conversational_ai/chat.py:50-62 | an answered line adds the user turn and the reply, then reads the next event |
| Chat.ConverseStops | conversational_ai/chat.py:55-70 | an unanswered line ends the session with that user turn pending: returned on Ctrl-C, re-raised on an exception |
| Chat.ConverseUserTurns | conversational_ai/chat.py:50-51 | the turns at even distances from the start are the typed lines, in order |
| Chat.ConverseReplies | conversational_ai/chat.py:53-62 | each turn at an odd distance is the reply to the history before it |
| Chat.ConverseEnds | conversational_ai/chat.py:48-70 | every session stops after `n` whole exchanges, at end of input or Ctrl-C, or with one user turn unanswered, at Ctrl-C or an exception |
| Chat.CompletedAfter | conversational_ai/chat.py:49-62 | after whole exchanges the history has even length and nothing is pending; one typed turn more is pending |
| Chat.ChatSession.constructor | conversational_ai/chat.py:43-47 | the transcript path is fixed once, before the loop; the history starts empty |
| Chat.ChatSession.Record | conversational_ai/chat.py:62-66 | after the model's answer: a reply adds two turns and saves the transcript once the threshold is met; Ctrl-C returns and an exception propagates, with the history as it stood |
| Chat.ChatSession.Turn | conversational_ai/chat.py:49-66 | one loop pass: two turns more, or the end of the session; the transcript is the full history with cyclic output prefixes, written only when the output file is set and the length reaches the threshold |
| Chat.ChatSession.Run | conversational_ai/chat.py:47-75 | the session is `Converse` of the events; the transcript holds the last completed history that met the threshold; the config log is written in `finally` under the same threshold |
| LegacyChat.Prompt | chat.py:44 | the prompt starts with `conversation: ` and covers the whole history, with no window |
| LegacyChat.PromptGrows | chat.py:41-44 | each new turn extends the prompt by `<TURN>` and that turn |
| LegacyChat.RespondIsJoin | chat.py:45-48 | the reply is the predictions joined by newlines, with no post-processing; it is empty exactly for no lines or one empty line |
| LegacyChat.OutputFile | chat.py:19-23 | a transcript path exists iff `output_dir` is truthy; its name is the run name, `__`, and the timestamp as an int |
| LegacyChat.Session.constructor | chat.py:16-23 | the transcript path is fixed once, before the loop |
| LegacyChat.Session.Exchange | chat.py:44-47 | the one prompt of the full history is sent with the keyword arguments `PredictKwargs` (`temperature=0.0`); the reply is exactly the predictions joined by newlines, and Ctrl-C and exceptions pass through |
| LegacyChat.Session.Record | chat.py:47-51 | after the model's answer: a reply adds two turns and overwrites the transcript with that exchange; Ctrl-C returns and an exception propagates |
| LegacyChat.Session.Turn | chat.py:40-51 | one loop pass: two turns more, and the transcript overwritten with only the latest exchange |
| LegacyChat.Session.Interactive | chat.py:37-54 | the session is `Converse` with the unprocessed responder; EOF and Ctrl-C return the history; the transcript holds the last exchange |
| LegacyChat.ExchangesAreJoinedPredictions | chat.py:40-48 | every completed exchange is a typed line, then the joined predictions for the prompt of the whole history up to it |
| Chitchat.LatestCheckpoint | conversational_ai/t5_model.py:70 | the latest checkpoint is the largest saved step; there is none when no step is saved |
| T5Gateway.ResolveStep | conversational_ai/t5_model.py:69-70 | only `-1` (or `-1.0`) and `"latest"` are resolved, to the largest saved step or the error for no checkpoint; every other value, `None` included, passes through |
| T5Gateway.SerialiseRoundTrip | conversational_ai/t5_model.py:75 | the input file splits back into the prompts iff there is at least one and none holds a newline |
| T5Gateway.DropBlankSplitEach | conversational_ai/t5_model.py:90 | filtering the per-fragment split keeps the non-blank lines of each fragment in turn |
| T5Gateway.OutputsPerFragment | conversational_ai/t5_model.py:88-90 | the lines kept are the non-blank lines of the fragments, in fragment order and in line order |
| T5Gateway.NoFragmentsNoOutputs | conversational_ai/t5_model.py:88-90 | zero output files give no line |
| T5Gateway.DecodeLine | conversational_ai/t5_model.py:92 | a line that is not a bytes literal raises SyntaxError; a decoded line is a strict part of the line |
| T5Gateway.DecodeLineFormat | conversational_ai/t5_model.py:92 | a line decodes only when, stripped, it is `b`/`B`, a quote, a plain body and the same quote; the decoding is that body |
| T5Gateway.DecodeEncode | conversational_ai/t5_model.py:92 | decoding the written form `b'...'` of a plain value gives the value back |
| T5Gateway.DecodeAll | conversational_ai/t5_model.py:92 | a successful decode gives one reply per line |
| T5Gateway.DecodeAllLines | conversational_ai/t5_model.py:92 | the lines decode together iff each decodes alone, then to their decodings in order; otherwise SyntaxError — never a partial list |
| T5Gateway.TryEach | conversational_ai/t5_model.py:92 | a list comprehension that may raise: a result has one item per input |
| T5Gateway.TryEachAll | conversational_ai/t5_model.py:92 | it succeeds iff every item does, giving the items' results in order; an error is the one an item raised |
| T5Gateway.InferBindingsInOrder | conversational_ai/t5_model.py:78-83 | the five bindings, made one after another, override the registry all at once |
| T5Gateway.Predict | conversational_ai/t5_model.py:62-92 | an unresolvable step raises before any binding; otherwise the five parameters are bound, the keyword arguments reach the run unchanged, and the result is the run's output lines, filtered and decoded, or the run's exception |
| Gin.WithDefaultBinds | models.py:85-90 | after a set-if-absent the key is bound, to its old value when it had one |
| Gin.WithDefaultOthers | models.py:85-90 | other keys are untouched |
| Gin.WithDefaultIdempotent | models.py:85-90 | a second set-if-absent of the key changes nothing, whatever its value |
| Gin.Config.Query | models.py:87 | `query_parameter` gives the bound value, and ValueError exactly for an unbound key |
| Gin.Config.Bind | conversational_ai/t5_model.py:78-83 | `bind_parameter` sets one key and nothing else |
| Gin.Config.SetDefault | models.py:85-90 | `_gin_setdefault` returns the existing binding unchanged, or binds and returns the given value |
| Models.FlattenPerFragment | models.py:57-58 | for at least one fragment, join-then-split is each fragment split on its own, concatenated |
| Models.TrailingNewline | models.py:58 | blank lines are not filtered: a fragment ending in a newline adds a trailing `""` |
| Models.NoFragmentsVersionsDiffer | models.py:58 | zero fragments give `[""]` here and `[]` in the newer gateway |
| Models.GatewayFiltersFlatten | models.py:58 | the newer gateway's lines are this flattening with blank lines dropped |
| Models.CheckpointStepsDefault | models.py:46 | `checkpoint_steps` defaults to `-1` only when the caller gave none; every given argument is kept |
| Models.T5.constructor | models.py:22-25 | the wrapper starts with the model's batch size and no evaluation |
| Models.T5.Evaluate | models.py:38-41 | each evaluation multiplies the batch size by 4 before it runs, so the `n`th runs with `4^n` times the first size |
| Models.T5.Predict | models.py:44-58 | the model gets the prompts one per line and the defaulted arguments; the result is its output flattened, or its exception |
| ConvoUtils.ConvoAsStr | conversational_ai/dataset/utils.py:15-16 | the result starts with `prefix` and ends with `suffix`; an empty conversation gives `prefix + suffix` |
| ConvoUtils.DefaultsAreNewlineJoin | conversational_ai/dataset/utils.py:9-15 | with the default arguments the result is `"\n".join(convo)` |
| ConvoUtils.TurnsAreRecoverable | conversational_ai/dataset/utils.py:15 | turn `i` is rendered as `turn_prefixes[i % n] + convo[i]`, and the turns are separated by one turn suffix each |
| Tasks.Clean | tasks.py:55 | the clean utterances are no more than the utterances |
| Tasks.CleanUtterances | tasks.py:55 | every utterance kept is stripped and non-empty |
| Tasks.CleanIsStrippedDropBlank | tasks.py:55 | the clean utterances are exactly the non-blank utterances, in order, each stripped |
| Tasks.CompoundCount | tasks.py:56 | `m` clean utterances give `max(m - 1, 0)` examples |
| Tasks.CompoundTargets | tasks.py:57-60 | the targets are the clean utterances after the first, in order |
| Tasks.CompoundFirst | tasks.py:58 | the first input is `converse: ` and the first clean utterance |
| Tasks.CompoundChain | tasks.py:58-59 | each input is the previous input, `<TURN>` and the previous target |
| Tasks.SplitsPartition | tasks.py:65-66 | `take(n)` for `"train"` followed by `skip(n)` for any other split is the whole dataset |
| PrepDataset.NormalizeWithoutSpaces | dataset.py:24-26 | every one of the seven patterns holds a space, so text without spaces is unchanged |
| PrepDataset.PrepConvo | dataset.py:17-30 | `_prep_convo` returns the lines `PrepLines` gives |
| PrepDataset.PrepLinesShape | dataset.py:20-28 | `m` non-blank utterances give `max(m - 1, 0)` lines; line `k` is `conversation: `, the first `k + 1` utterances joined by `<TURN>`, a tab, then utterance `k + 1`, normalised as a whole |
| PyStr.DropBlankKeeps | dataset.py:20 | every utterance kept is one of those given and not blank; kept utterances are not stripped |
| PrepDataset.EouSplit | dataset.py:47 | one piece per marker-free line part; no piece has whitespace on a side where a marker was |
| PrepDataset.ExtendAll | dataset.py:45-51 | the dataset is extended with the lines of every conversation, conversation after conversation |
| PrepDataset.WriteToFiles | dataset.py:33-62 | the train and validation texts are the shuffled lines, cut at `int(train_ratio * len)` and joined by newlines |
| PrepDataset.Truncate | dataset.py:58 | `int()` of a float truncates toward zero |
| PrepDataset.SplitCoversDataset | dataset.py:58-60 | for any cut, the train lines then the validation lines are the shuffled dataset, as a sequence and as a multiset |
| PrepDataset.TrainShare | dataset.py:58-60 | for a ratio in `[0, 1]` the cut is inside the dataset and the files hold `ds[:idx]` and `ds[idx:]` |
| Train.ISqrt | train.py:116 | `int(pow(n, 1/2))` as the integer square root: `r*r <= n < (r+1)*(r+1)` |
| Train.FactorsFrom | train.py:116-118 | each pair yielded from `i` to `hi` is a divisor in range and its co-factor; first components strictly increase |
| Train.FactorsFromComplete | train.py:116-118 | no divisor in range is skipped, and none comes before the first pair |
| Train.Factors | train.py:114-118 | the loop yields exactly the pairs `FactorPairs` gives |
| Train.FactorPairsMultiply | train.py:115-118 | every pair `(i, j)` has `i * j == n`, `i <= j`, and `i` at least the start |
| Train.FactorPairsComplete | train.py:116-118 | every `i <= j` with `i * j == n`, from the start on, is yielded |
| Train.FactorsOfOne | train.py:115 | `_factors(1)` yields exactly `(1, 1)` |
| Train.FactorsEmptyIffPrime | train.py:115-118 | for `n >= 2` with the default flag, nothing is yielded iff `n` is prime |
| Train.DefaultMeshShape | train.py:63-66 | `next(_factors(len(gpus)))` raises StopIteration iff no pair is yielded |
| Train.DefaultMeshShapeUsesAllGpus | train.py:65-66 | the default mesh multiplies to the GPU count and takes the smallest factor above 1 |
| Train.PrimeGpuCountRaises | train.py:65 | a prime number of GPUs makes the default mesh raise StopIteration |
| Train.OneGpuMesh | train.py:65-66 | one GPU gives `model:1,batch:1` |
| Train.DeviceNames | train.py:70 | one name per GPU, the physical-device prefix removed and lower-cased |
| Train.FinetuneMesh | train.py:38-70 | no GPU raises RuntimeError; with GPUs, a given mesh shape always succeeds and is kept, and a missing one succeeds exactly when the default shape does and is that shape; given devices are kept; missing devices come from the GPU names |
| Train.FinetuneMeshFails | train.py:38-66 | without a mesh shape, `finetune` raises iff there is no GPU or a prime number of them |
| Layout.MeshShapeRoundTrip | model.py:67 | `model:{a},batch:{b}` records both sizes: reading it back gives them |
| Layout.MeshShapeInjective | train.py:66 | different sizes give different mesh shapes |
| Layout.DeviceName | train.py:70 | a normalised device name is no longer than the name and has no upper-case letter |
| Layout.DeviceNameOfPhysical | model.py:92 | `/physical_device:GPU:0` becomes `gpu:0` |
| Layout.EnvValue | train.py:131-134 | a value `json.loads` accepts is parsed; otherwise the raw string is kept |
| Layout.EnvKwargsKeys | train.py:136 | a keyword argument exists exactly for the names parsed from `CONVERSATIONAL_AI_` variables |
| Layout.EnvKwargsLast | model.py:107 | a keyword argument's value comes from the last variable whose name parses to it |
| Layout.EnvKwargsIgnoresOthers | train.py:136 | variables without the prefix are ignored |
| Layout.EnvKeyOfPrefixed | model.py:105 | the key is the name without the prefix, lower-cased |
| Mesh.LayOut | model.py:58-60 | model parallelism is at least 1 and kept when positive; a truthy data parallelism is kept; a derived one is at least 1 |
| Mesh.DerivedDataParallelism | model.py:60 | a derived data parallelism is the number of whole model replicas the devices hold, or 1 when they hold none |
| Mesh.ZeroDataParallelismIsDerived | model.py:59 | a data parallelism of 0 is derived like `None` |
| Mesh.MeshShapeOf | model.py:67 | the mesh shape reads back as the clamped and derived sizes |
| Mesh.AllGpus | model.py:94 | the available names are exactly the normalised names of the physical GPUs |
| Mesh.SelectGpus | model.py:96 | the selected GPUs are always among the available ones |
| Mesh.SelectGpusMembers | model.py:96 | a GPU is selected iff it is available and, for a non-empty request list, some requested name lower-cases to it |
| Mesh.TrainedModel.constructor | model.py:56-71 | the devices are the selected GPUs, the layout is derived from their number, and the mesh shape is built from it |
| Mesh.TrainedModel.ScaleBatchForEval | model.py:85 | the batch size is multiplied by 4 before `eval` |
| PyStr.FindSpec | conversational_ai/chat.py:59 | `find` gives the first occurrence, and none exactly when the pattern does not occur |
| PyStr.FirstPieceOfSplit | conversational_ai/chat.py:59 | `s.split(sep)[0]` is the prefix of `s` before the first occurrence of `sep`, or all of `s` |
| PyStr.JoinSplit | conversational_ai/t5_model.py:90 | joining the pieces of a split with the separator gives the string back |
| PyStr.SplitPiecesLackSep | conversational_ai/t5_model.py:90 | no piece of a split contains the separator |
| PyStr.SplitJoin | conversational_ai/t5_model.py:75 | splitting a join recovers the items when none holds the one-character separator |
| PyStr.SplitJoinIsSplitEach | models.py:58 | splitting a join of fragments is splitting each fragment on its own |
| PyStr.ReplaceIsSplitJoin | conversational_ai/chat.py:60 | `replace` is split on the pattern, then join with the replacement |
| PyStr.ReplaceAbsent | conversational_ai/chat.py:60 | replacing a pattern that does not occur changes nothing |
| PyStr.ReplaceEmptyByEmpty | conversational_ai/chat.py:60 | `s.replace("", "")` is `s`, so an empty model prefix leaves the reply alone |
| PyStr.Strip | conversational_ai/chat.py:60 | `strip()` leaves no whitespace at either end, and is empty iff the text is blank |
| PyStr.StripLeft | dataset.py:47 | `lstrip()` drops only leading whitespace and stops at the first other character |
| PyStr.StripRight | dataset.py:47 | `rstrip()` drops only trailing whitespace and stops at the last other character |
| PyStr.StripIdempotent | conversational_ai/chat.py:60 | `strip()` twice is `strip()` once |
| PyStr.StripPadded | conversational_ai/chat.py:60 | a stripped text padded with whitespace strips back to itself |
| PyStr.DropBlankConcat | conversational_ai/t5_model.py:90 | filtering a concatenation filters each part |
| PyStr.DropBlankNone | conversational_ai/t5_model.py:90 | nothing is dropped from a list without blank items |
| Numerals.NatStrValue | model.py:67 | reading back the digits of `str(n)` gives `n` |
| Numerals.ParseIntStr | model.py:67 | `int(str(i)) == i` for every int |

## Left out

- Framework and process plumbing are not part of this model:
  - `docker.py` builds subprocess commands.
  - `serve.py` is an asynchronous websocket server.
  - `config/generate.py` writes configuration files.
  - `conversational_ai/tasks.py` and `conversational_ai/dataset/` only register tasks and wrap generators.
  - `train.old.py` and `test.py` are a broken script and a demo.
- Model calls are not modelled.
  - Not modelled: `MtfModel`, `finetune`, `utils.run`, `init_gin_config`, `register_task`, `train.log_level`, and the `__main__` blocks, including `models.py:98-116`.
  - The model run is a parameter that returns the texts of the output files, or an exception.
  - The `T5` constructor is reduced to the batch size it starts with.
- Console and file effects are not modelled, because they are I/O.
  - Inputs: the console is a sequence of lines and Ctrl-C events.
    - The end of the sequence is EOF.
  - Not modelled: `print`, `readline`, `mkdir`, temporary directories, glob order and file timestamps.
    - The output files come in the order given.
  - Writes are the last text a session wrote, kept in a field.
  - The newest checkpoint directory by modification time (`chat.py:65-70`) is left out.
- Timestamps and path formatting are parameters or left out.
  - The transcript path of `conversational_ai/chat.py` is taken as already formatted. `str.format(**fmt)` and the time zone are left out.
  - In `chat.py` the time is an int parameter. `Path.name` and joining a path are left out.
- Python's `Path` is always truthy, so `if output_file:` in `conversational_ai/chat.py:64` is modelled as `output_file is not None`.
- `prepend_cycle` is only defined for a non-empty list of prefixes.
  - The session therefore requires both prefix lists to be non-empty.
  - The original would raise `ZeroDivisionError` on an empty list.
- `_get_latest_checkpoint_from_dir` is the largest of the steps given.
- `json.loads` is a parameter: a function that parses a value or fails.
- `random.shuffle` is a parameter: a function on the list of lines.
- `gin.config_str()` is a parameter: the text of the config log.
- `set_memory_growth` is a side effect on the device and is left out.
- The order of `mesh_devices` is left out.
  - `model.py:96` builds a set, so the model keeps a set and the list order is not modelled.
- Lower-casing (`PyStr.Lower`, `Layout.DeviceName`) maps only ASCII letters. Unicode case mapping is left out.
- `T5Gateway.DecodeLine`:
  - decodes only `b'...'` and `b"..."` literals whose body is ASCII without backslashes or line breaks; escape sequences and the rest of Python's literal grammar are left out, and such lines decode to SyntaxError in the model;
  - says only what an error is and how long a value is; the format it accepts is stated by `T5Gateway.DecodeLineFormat`.
- `PrepDataset.EouSplit`:
  - models `re.split(r"\s*__eou__\s*", line)` as `split("__eou__")`, with whitespace stripped from the sides that touched a marker;
  - where the regex would match whitespace that itself contains a further marker, the two can differ.
- `Train.ISqrt` replaces the floating-point `int(pow(n, 1 / 2))` by the exact integer square root. Rounding of the float square root is left out.
- `PrepDataset.TrainIndex`: the product `train_ratio * len` is computed on reals. Floating-point rounding of the product is left out.
- An exception raised by the external model run is passed on as `ModelFailed` with a reason string. Its Python type is not modelled.
- Keyword arguments are passed on as a map of names to values. Python's binding of `**kwargs` to a callee's parameters is left out.
- Mesh.TrainedModel.constructor: takes `global_batch_size` as a number of sequences. The default `("tokens_per_batch", 1024)` of `model.py:27`, which `MtfModel` turns into a number of sequences from the sequence length and the mesh, is not modelled.
