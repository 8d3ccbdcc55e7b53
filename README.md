# Polygames core, modelled in Dafny

Polygames trains game-playing agents by self-play. Actor processes play
games with a Monte Carlo tree search guided by a neural network. The
finished games go into replay buffers that a learner samples. Training
runs save checkpoints and can be resumed with a merged configuration.
Actors and the learner talk through a small remote procedure call layer.

This project models the parts of that system whose behaviour is exact
rather than numeric:

- **Replay buffers.** `TubeReplayBuffer` is the dense ring of the tube
  library, with its sampling and its saved state. `CoreReplayBuffer` is the
  slot ring of the core library.
- **Resuming a run.** `CommandHistory` holds the recorded command lines and
  the merge of checkpoint parameters with resumed ones. `Params` holds the
  configuration dataclasses: the "None keeps the default" setter, the
  start-up validation and the derived command-line options.
  `Checkpoint` holds checkpoint file names, the decompression picked from
  the suffix, and the round-by-round choice of new epochs to evaluate.
- **Transport.** `Rpc` is the serializer and deserializer of call messages
  and the reply status byte. `Network` is the endpoint parser and the
  fixed-size socket buffer.
- **Board engines.** `Hex` and `Havannah` track connected groups, borders,
  corners and the winner. `Chessboard` is the square numbering, Zobrist
  hash and square names shared by the chess-like games. `ConnectFour`,
  `WeakSchur`, `NoGoBitBoard` and `NoGoPosition` (the NoGo bitboard, points
  and the eight symmetries), and `Minesweeper` (cell numbering, neighbours,
  the mark mask and the board text) complete the list.
- **Search tree bookkeeping.** `MctsNode` is the sorted child list of a
  node and the freeing of a subtree. `MctsStorage` is the free-list node
  allocator.

Shared helpers: `Wrappers` (Option and Result), `Decimal` (decimal text of
numbers), `Modular` (products, quotients and ring positions) and `Bits`
(exclusive or on machine words taken as natural numbers).

Objects that the source updates in place are classes whose methods carry
`modifies` clauses and state their new state, in full or through a value
predicate that fixes it (the Hex and Havannah stone moves are pinned to
the reference placement of the stone). Pure computations are
functions. Each method is proved against a specification function or a
value predicate, and the properties the source promises are lemmas about
those functions.

Where a source comment and the code disagree, the code is followed. The
comment at `src/games/havannah.h:20-21` gives the cell count as
`FULLSIZE - SIZE*(SIZE-1)`. The code computes
`FULLSIZE*FULLSIZE - (SIZE-1)*SIZE`, and `Havannah.HexagonCells` proves
the code's count. The MCTS node follows `src/mcts/node.cc`: a vector of
(action, child) pairs kept sorted by action. The `src/mcts/node.h` of the
same snapshot declares an unordered map and a `getOrAddChild` member that
`node.cc` does not define.

## Model

| member | source | states |
|---|---|---|
| TubeReplayBuffer.RingIndices | src/tube/src_cpp/replay_buffer.cc:113-115 | the write slots of a batch of n rows: n slots, each inside [0, capacity) |
| TubeReplayBuffer.RingIndicesDistinct | src/tube/src_cpp/replay_buffer.cc:113-115 | a batch of at most capacity rows gets pairwise different slots, so no row of the batch overwrites another |
| TubeReplayBuffer.RingStep | src/tube/src_cpp/replay_buffer.cc:116-119 | before the ring wraps, nextIdx after the step equals the new fill level |
| TubeReplayBuffer.IndexCopy | src/tube/src_cpp/replay_buffer.cc:53 | index_copy_ keeps the length of the column |
| TubeReplayBuffer.IndexCopyAt | src/tube/src_cpp/replay_buffer.cc:53 | with distinct indices, row i of the input ends at idx[i] and every other row of the column is kept |
| TubeReplayBuffer.CopyBatch | src/tube/src_cpp/replay_buffer.cc:42-54 | copying into every column keeps the key set and each column's length |
| TubeReplayBuffer.RingCopy | src/tube/src_cpp/replay_buffer.cc:42-54 | after the copy, row i of every key is in slot (i + nextIdx) % capacity and every other slot is unchanged |
| TubeReplayBuffer.SampleKFromN | src/tube/src_cpp/replay_buffer.cc:14-25 | the samples are pairwise distinct, each in [0, n), min(k, n) of them unless the generator's outputs run out, and they are exactly the residues drawn |
| TubeReplayBuffer.ReplayBuffer.constructor | torchRL/tube/src_cpp/replay_buffer.h:43-46 | capacity fixed by the constructor; size, nextIdx, numAdd and numSample all 0 by their member initialisers; no columns |
| TubeReplayBuffer.ReplayBuffer.Full | torchRL/tube/src_cpp/replay_buffer.h:64-66 | full() holds iff size == capacity |
| TubeReplayBuffer.ReplayBuffer.GetNextIndices | src/tube/src_cpp/replay_buffer.cc:100-126 | returns the slots (i + nextIdx) % capacity for i < n; size becomes min(size + n, capacity); nextIdx advances by n modulo capacity; nothing else changes |
| TubeReplayBuffer.ReplayBuffer.CreateColumns | src/tube/src_cpp/replay_buffer.cc:29-36 | an empty buffer gets one zero column of capacity rows per input key; a non-empty buffer is left as it is |
| TubeReplayBuffer.ReplayBuffer.CopyRows | src/tube/src_cpp/replay_buffer.cc:42-54 | every column receives the batch's rows at the ring slots following nextIdx, all other slots unchanged |
| TubeReplayBuffer.ReplayBuffer.Add | src/tube/src_cpp/replay_buffer.cc:27-55 | size becomes min(size + n, capacity) and full() iff the rows reach capacity; nextIdx advances by n modulo capacity; numAdd grows by n; the rows land in the ring slots after the old nextIdx and the rest of the ring is kept |
| TubeReplayBuffer.ReplayBuffer.Sample | src/tube/src_cpp/replay_buffer.cc:57-70 | numSample grows by sampleSize; the buffer is unchanged; the picked indices are distinct and below size; each result column holds the stored rows at those indices |
| TubeReplayBuffer.ReplayBuffer.ToState | src/tube/src_cpp/replay_buffer.cc:72-83 | the snapshot carries capacity, size, nextIdx, the generator state and the columns |
| TubeReplayBuffer.ReplayBuffer.InitFromState | src/tube/src_cpp/replay_buffer.cc:85-98 | fails iff the capacities differ, then nothing changes; otherwise the buffer's state is the snapshot's |
| TubeReplayBuffer.RestoreRoundTrip | src/tube/src_cpp/replay_buffer.cc:72-98 | initFromState(toState()) gives back the same state |
| CoreReplayBuffer.Lookup | src/core/replay_buffer.cc:89 | input.at(key) finds a column iff the key is in the batch, and returns that key's rows |
| CoreReplayBuffer.EntryAt | src/core/replay_buffer.cc:85-108 | the entry of row i, when it is built, has one value per stored key |
| CoreReplayBuffer.EntryAtSpec | src/core/replay_buffer.cc:85-108 | the entry is built iff every stored key has a row i, and then holds those rows in key order; otherwise the error names a stored key that is missing (MissingKey, input.at throws) or whose column is too short (RowMissing, the row index throws) |
| CoreReplayBuffer.WrittenFrom | src/core/replay_buffer.cc:72-127 | the loop writes every row up to the first one that throws, or all rows of the first column |
| CoreReplayBuffer.WrittenStopsAt | src/core/replay_buffer.cc:72-127 | the first failing row is exactly the number of rows written |
| CoreReplayBuffer.UniformAllOrNothing | src/core/replay_buffer.cc:72-127 | with columns of equal length, all rows or none are written, none exactly when there are rows and the stored keys are not all there |
| CoreReplayBuffer.ShortColumnStops | src/core/replay_buffer.cc:89 | a stored key with a column shorter than the first stops the writes at its length, and add fails |
| CoreReplayBuffer.LongColumnsTruncated | src/core/replay_buffer.cc:72 | with every stored key present and no column shorter than the first, all rows of the first column are written and the longer columns are cut to that length |
| CoreReplayBuffer.MatchesIffSameKeys | src/core/replay_buffer.cc:77-89 | with as many distinct names as keys, the batch carries every stored key iff the two key sets are equal |
| CoreReplayBuffer.SeqSetCard | src/core/replay_buffer.cc:56-60 | a list of distinct key names has as many names as its set |
| CoreReplayBuffer.Placed | src/core/replay_buffer.cc:122-126 | writing a run of entries into the ring keeps its length |
| CoreReplayBuffer.PlacedSnoc | src/core/replay_buffer.cc:122-126 | one more entry is written into slot (start + count) % capacity, on top of the earlier writes |
| CoreReplayBuffer.PlacedUntouched | src/core/replay_buffer.cc:122-126 | a slot no entry of the run maps to keeps its old entry |
| CoreReplayBuffer.PlacedLast | src/core/replay_buffer.cc:122-126 | with no more entries than slots, entry i is in slot (start + i) % capacity |
| CoreReplayBuffer.ReplayBuffer.Size | src/core/replay_buffer.h:57-59 | size() = min(numAdd, capacity) |
| CoreReplayBuffer.ReplayBuffer.Full | src/core/replay_buffer.h:61-63 | full() iff size() == capacity, which needs numAdd >= capacity |
| CoreReplayBuffer.ReplayBuffer.constructor | src/core/replay_buffer.h:87-100 | every slot empty, no keys, all counters 0 |
| CoreReplayBuffer.ReplayBuffer.BuildEntry | src/core/replay_buffer.cc:85-108 | the loop over the stored keys builds exactly EntryAt: row i of each key in key order, or the error of the first key that is missing or too short |
| CoreReplayBuffer.ReplayBuffer.PutEntry | src/core/replay_buffer.cc:122-126 | the entry replaces slot numAdd % capacity and numAdd grows by one; the occupied slots stay the first size() ones |
| CoreReplayBuffer.ReplayBuffer.AddRow | src/core/replay_buffer.cc:76-127 | one row: a key-count mismatch, a missing key or a column without row i throws and leaves everything as before this row, else the entry goes to the next ring slot and numAdd grows by one |
| CoreReplayBuffer.ReplayBuffer.AddRows | src/core/replay_buffer.cc:70-127 | the loop runs over the rows of the first column; the rows before the first one that throws stay written, row i in slot (numAdd + i) % capacity, numAdd grows by their count, and the result is that row's error (RowsAdded) |
| CoreReplayBuffer.ReplayBuffer.Add | src/core/replay_buffer.cc:45-128 | an empty input changes nothing; the first non-empty batch fixes the keys; then as AddRows |
| CoreReplayBuffer.ReplayBuffer.SampleImpl | src/core/replay_buffer.cc:130-218 | before any add: empty result and no counter moves; otherwise prevSampleNumAdd grows by min(numAdd - prevSampleNumAdd, sampleSize); it fails (std::out_of_range) iff rows are asked of a buffer holding none, with numSample kept; else one column of sampleSize rows per stored key and numSample grows by sampleSize |
| CoreReplayBuffer.Ss | src/core/replay_buffer.h:31-39 | the text is "[" + the decimal values joined by ", " + "]" |
| CommandHistory.SplitOn | pypolygames/utils/command_history.py:17-22 | str.split("="): at least one piece, none containing the separator |
| CommandHistory.SplitJoin | pypolygames/utils/command_history.py:17-22 | joining the pieces with the separator gives the argument back, so splitting loses nothing but the '=' signs |
| CommandHistory.Tokens | pypolygames/utils/command_history.py:17-22 | no token of the recorded command contains '=' |
| CommandHistory.Normalize | pypolygames/utils/command_history.py:29-30 | the option gets the "--" prefix exactly when it lacks it, and keeps its text after the prefix |
| CommandHistory.NormalizeIdempotent | pypolygames/utils/command_history.py:29-30 | adding the missing prefix twice is the same as once |
| CommandHistory.HistoryQueries | pypolygames/utils/command_history.py:25-42 | after build_history, "formerly set" looks only at the former commands and "newly set" only at the current one |
| CommandHistory.FreshRunNeverFormerlySet | pypolygames/utils/command_history.py:28-34 | a history of only the command given now has no former command, so nothing is formerly set |
| CommandHistory.Pick | pypolygames/utils/command_history.py:68-77 | the four branches reduce to one rule: the checkpoint's value only when formerly set and not newly set, else the resume value |
| CommandHistory.Merge | pypolygames/utils/command_history.py:63-77 | the merged keyword arguments cover exactly the declared fields |
| CommandHistory.MergeAt | pypolygames/utils/command_history.py:65-77 | each field's merged value: never set before gives the resume value; set before and not now gives the checkpoint value; set before and now gives the resume value |
| CommandHistory.CommandHistory.constructor | pypolygames/utils/command_history.py:15-23 | the history holds one command: argv's tokens split at '=' |
| CommandHistory.CommandHistory.BuildHistory | pypolygames/utils/command_history.py:25-26 | the former commands come first, the current ones last |
| CommandHistory.CommandHistory.FormerCommandsContain | pypolygames/utils/command_history.py:28-34 | true iff some command but the last holds the option with its "--" prefix |
| CommandHistory.CommandHistory.LastCommandContains | pypolygames/utils/command_history.py:36-42 | defines "newly set": the option, with its "--" prefix added when missing, is a token of the last command, and an empty history sets nothing; HistoryQueries proves it looks only at the current command |
| CommandHistory.CommandHistory.LastCommandContainsParams | pypolygames/utils/command_history.py:44-58 | true iff some field option not among the normalised excluded ones is in the last command |
| CommandHistory.CommandHistory.AnyNewlySet | pypolygames/utils/command_history.py:53-58 | the loop finds an option outside the excluded ones that is newly set iff one exists |
| CommandHistory.CommandHistory.MergeParams | pypolygames/utils/command_history.py:64-77 | the loop builds exactly the merge of the declared fields |
| CommandHistory.CommandHistory.UpdateParamsFromCheckpoint | pypolygames/utils/command_history.py:60-78 | builds the checkpoint's dataclass from the merged values; fails iff that class's validation rejects them |
| CommandHistory.OptionNames | pypolygames/params.py:112-114 | one option name per field, "--" followed by the field name |
| CommandHistory.Normalized | pypolygames/utils/command_history.py:49-51 | each excluded option with the "--" prefix added where it is missing |
| Params.FieldNamesDistinct | pypolygames/params.py:22-31 | no dataclass declares the same field name twice, so every field has one default |
| Params.DefaultIn | pypolygames/params.py:22-31 | a name that is not declared has no default (None); for a declared name the default is the one declared with it |
| Params.DefaultAt | pypolygames/params.py:22-31 | the default looked up by a field's name is that field's declared default |
| Params.Assigned | pypolygames/params.py:33-36 | the setter stores a value that is not None unchanged; None keeps the current value, or the declared default while the attribute is not held yet; an attribute neither held nor declared is an AttributeError, and only then |
| Params.Assign | pypolygames/params.py:22-36 | after the generated `__init__` the instance holds exactly the declared fields |
| Params.AssignAt | pypolygames/params.py:22-36 | each field holds its keyword argument when one other than None was passed, and its declared default otherwise |
| Params.InitialValuesSpec | pypolygames/params.py:33-36 | for every declared field at once: the value after `__init__` is the argument unless it is None, else the default; nothing undeclared is set |
| Params.InitialNeverAbsent | pypolygames/params.py:33-36 | a field whose default is not None never holds None after `__init__`, whatever None the caller passes |
| Params.Check | pypolygames/params.py:599-619 | the error `__post_init__` raises, per class: ModelParams (lines 150-155) fails exactly when init_checkpoint is set and pure_mcts is true; SimulationParams (345-347) exactly when per_thread_batchsize is 0 and act_batchsize exceeds num_game; ExecutionParams (454-457) exactly when save_dir is given; EvalParams passes exactly when one of checkpoint_dir and checkpoint is given, and a checkpoint comes with neither real_time nor plot_enabled; GameParams and OptimParams never fail |
| Params.EvalCheckOrder | pypolygames/params.py:599-619 | when EvalParams breaks several rules, the error raised is the first one checked: real_time with a checkpoint, then neither checkpoint, then both, then plotting with a checkpoint |
| Params.Absolute | pypolygames/params.py:451-453 | `Path.absolute()` yields an absolute path and leaves an absolute path as it is |
| Params.MakeAbsolute | pypolygames/params.py:451-453 | making the path fields absolute sets no new attribute and changes no field outside the path fields |
| Params.AssignStep | pypolygames/params.py:33-36 | assigning the next field through the setter extends the instance built from the fields before it by exactly that field |
| Params.Dataclass.constructor | pypolygames/params.py:21-31 | a new instance of a class knows its declared fields and holds no attribute yet |
| Params.Dataclass.SetAttr | pypolygames/params.py:33-36 | `__setattr__` stores what the setter rule gives and changes no other attribute; on AttributeError nothing changes |
| Params.Dataclass.Init | pypolygames/params.py:22-36 | the generated `__init__` assigns every declared field in order through the setter, giving the attributes of Assign |
| Params.Dataclass.PostInit | pypolygames/params.py:451-457 | `__post_init__` raises the error Check names, if any; otherwise it makes the path fields absolute |
| Params.Build | pypolygames/params.py:149-156 | constructing a class fails exactly when a keyword is not a field (TypeError) or the checks fail, with the check's own error; on success the new instance holds the initial values with absolute paths |
| Params.Construct | pypolygames/params.py:599-623 | the instance is created, initialised and checked; it holds the initial values with absolute paths when no check fails |
| Params.GameEqualIgnoresSideFields | pypolygames/params.py:38-49 | game parameters that differ only in random_features or the side-learning fields compare equal; a different history does not |
| Params.PlaceholderInit | pypolygames/params.py:735 | the help-text instance of EvalParams is built holding the placeholder checkpoint_dir and no checkpoint |
| Params.PlaceholderMadeAbsolute | pypolygames/params.py:620-623 | `__post_init__` makes the placeholder absolute and leaves the absent checkpoint alone |
| Params.PlaceholderKept | pypolygames/params.py:735-736 | assigning None to the placeholder checkpoint_dir keeps the absolute placeholder path, which does not print as None |
| Params.PathReprNotNone | pypolygames/params.py:747 | an absolute path does not print as "None" |
| Params.EvalHelpDefaultNotReverted | pypolygames/params.py:735-747 | as written, the help of `--checkpoint_dir` shows the absolute placeholder path, although the declared default is None |
| Params.EvalCheckpointFields | pypolygames/params.py:568-571 | EvalParams declares checkpoint_dir and checkpoint, in that order after the first field, both with default None |
| Params.HelpDefaultsAreDeclared | pypolygames/params.py:112-120 | the help texts built from a default instance show each field's declared default, for every class |
| Params.ArgFields | pypolygames/params.py:112-120 | `arg_fields` yields one entry per declared field, in order, named "--" and the field, with a help text ending in the default the field shows |
| Params.ArgFieldsMatchFields | pypolygames/params.py:112-120 | the option names strip back to the field names, name every declared field and nothing else, and are pairwise distinct |
| Checkpoint.SavedName | pypolygames/utils/checkpoint.py:57-78 | the saved file is named "checkpoint_" and the epoch, ending in ".pt" when saved uncompressed and in ".pt.gz" otherwise |
| Checkpoint.SavedKeys | pypolygames/utils/checkpoint.py:58-70 | the saved dictionary always holds the epoch, the command history and the model state, and holds the replay buffer exactly when saving it is not disabled |
| Checkpoint.BaseName | pypolygames/utils/checkpoint.py:83 | the final path component ends the path and holds no '/' |
| Checkpoint.LastDot | pypolygames/utils/checkpoint.py:83 | the position of the last '.' of a name, or none when the name holds no '.' |
| Checkpoint.Suffix | pypolygames/utils/checkpoint.py:83 | `Path.suffix` is empty, or a '.' followed by at least one character and no further '.', ending the path |
| Checkpoint.LoadFormat | pypolygames/utils/checkpoint.py:82-99 | a ".pt" suffix loads as plain, ".gz" as gzip, ".zip" as zip, and every other suffix is a ValueError, each in both directions |
| Checkpoint.SavedNameLoads | pypolygames/utils/checkpoint.py:72-86 | a checkpoint saved under its own name is loaded in the format it was saved in: plain when uncompressed, gzip otherwise |
| Checkpoint.StripExt | pypolygames/utils/checkpoint.py:102-118 | removing the extension pattern leaves a prefix and removes one of ".pt", ".gz", ".pt.gz", ".zip" or nothing; ".pt.gz" goes as a whole; nothing is removed exactly when the path ends in none of them |
| Checkpoint.StripSavedName | pypolygames/utils/checkpoint.py:57-118 | the name a checkpoint is saved under, stripped of its extension, is "checkpoint_" and the epoch's digits |
| Checkpoint.ParseEpoch | pypolygames/utils/checkpoint.py:122 | `int()` of the text after the base path succeeds exactly when the text is a non-empty run of digits |
| Checkpoint.Parsed | pypolygames/utils/checkpoint.py:117-123 | one parse per listed file, in order, of the text between the base path and the extension |
| Checkpoint.EpochsOf | pypolygames/utils/checkpoint.py:121-124 | the set of epochs of a listing holds exactly the parsed epochs; building it fails exactly when some file's epoch does not parse |
| Checkpoint.Collect | pypolygames/utils/checkpoint.py:121-124 | collecting parses into a set yields exactly the parsed values, and fails, with one of the parse errors, exactly when some parse fails |
| Checkpoint.MinExists | pypolygames/utils/checkpoint.py:131 | a non-empty set of epochs has a least element |
| Checkpoint.SetMin | pypolygames/utils/checkpoint.py:131 | the least element of a non-empty set of epochs |
| Checkpoint.SortAscending | pypolygames/utils/checkpoint.py:131 | `sorted()` of a set is strictly increasing and holds exactly the set's elements |
| Checkpoint.SortStep | pypolygames/utils/checkpoint.py:131 | the least element put before the sorted rest gives the sorted set |
| Checkpoint.LastOnlyYieldsHighest | pypolygames/utils/checkpoint.py:132-134 | in real-time or last-only mode a round yields nothing when no epoch is new, otherwise exactly one epoch, the highest new one |
| Checkpoint.SelectedSpec | pypolygames/utils/checkpoint.py:131-134 | the epochs a round yields are new, strictly ascending, and, unless only the last is kept, all the new ones |
| Checkpoint.ExtOf | pypolygames/utils/checkpoint.py:126-128 | the extension the pattern finds is one of the four extensions or empty, and the stripped path followed by it is the path |
| Checkpoint.LoadPaths | pypolygames/utils/checkpoint.py:136-139 | one path per chosen epoch, in order: the base path, the epoch and the detected extension |
| Checkpoint.EpochPathRoundTrip | pypolygames/utils/checkpoint.py:117-138 | the path a round loads for an epoch parses back to that epoch in the next listing |
| Checkpoint.EpochSelector.constructor | pypolygames/utils/checkpoint.py:105-111 | a new generator has seen no epoch and detected no extension |
| Checkpoint.EpochSelector.Round | pypolygames/utils/checkpoint.py:117-139 | one pass of the loop: it fails, changing nothing, when an epoch does not parse or when the first listing holding epochs shows no extension; otherwise it remembers the listing's epochs, detects the extension once, and yields the paths of the new epochs |
| Checkpoint.EpochSelector.Advance | pypolygames/utils/checkpoint.py:125-139 | fails, changing nothing, exactly when the extension is still to be detected, some epoch was found and the first file has no extension; otherwise it reaches the state `Advanced` describes |
| Checkpoint.EpochSelector.YieldPaths | pypolygames/utils/checkpoint.py:136-139 | the loop yields the load path of each chosen epoch, in order |
| Rpc.Pow256 | src/distributed/rpc.h:33-35 | the number of values a trivial type of n bytes holds is positive |
| Rpc.Encode | src/distributed/rpc.h:33-35 | a trivial value is written as exactly as many bytes as its width |
| Rpc.Decode | src/distributed/rpc.h:136 | the bytes read back stand for a value that fits the width they were read from |
| Rpc.DecodeEncode | src/distributed/rpc.h:33-35 | a value written and read back at the same width is the value written |
| Rpc.EncodeDecode | src/distributed/rpc.h:136 | any bytes read as a value and written back at the same width are the same bytes |
| Rpc.EncodeString | src/distributed/rpc.h:38-41 | a string is written as its 8-byte length followed by its bytes |
| Rpc.Serializer.constructor | src/distributed/rpc.h:22-23 | a new serializer has an empty buffer |
| Rpc.Serializer.Write | src/distributed/rpc.h:24-32 | appends exactly the given bytes; the capacity is kept when they fit, and otherwise grows to the larger of the size needed and twice the old capacity, at least 16 |
| Rpc.Serializer.WriteUInt | src/distributed/rpc.h:33-36 | appends exactly the value's bytes |
| Rpc.Serializer.WriteString | src/distributed/rpc.h:38-41 | appends exactly the length and then the string |
| Rpc.Serializer.Clear | src/distributed/rpc.h:69-71 | empties the buffer and keeps its capacity |
| Rpc.ReadUIntFrom | src/distributed/rpc.h:130-138 | a trivial value is read from the front and the rest follows; a buffer too short for it is consumed whole and reads as zero |
| Rpc.ReadStringFrom | src/distributed/rpc.h:120-128 | a string is the declared number of bytes after the length, clamped to the bytes that remain; string and rest together are everything after the length |
| Rpc.ReadStringViewFrom | src/distributed/rpc.h:110-119 | as intended, the element count read is clamped to the whole elements that remain, and only those bytes are consumed |
| Rpc.Clamped | src/distributed/rpc.h:113-115 | the count kept is the smaller of the declared count and the whole elements available, and its bytes fit in what remains |
| Rpc.ReadStringViewAsWritten | src/distributed/rpc.h:110-119 | as written, with the byte count `sizeof(T) * len` wrapping modulo 2^64: when the wrapped count fits, the declared count is kept unclamped |
| Rpc.ReadStringViewOverruns | src/distributed/rpc.h:110-119 | as written, a declared count of 2^63 two-byte elements wraps to zero bytes, so a view of 2^63 elements is returned over an empty buffer, where the intended reader returns an empty view |
| Rpc.Deserializer.constructor | src/distributed/rpc.h:101-106 | a deserializer starts with the given bytes unread |
| Rpc.Deserializer.Consume | src/distributed/rpc.h:107-109 | drops exactly the given number of leading bytes |
| Rpc.Deserializer.ReadUInt | src/distributed/rpc.h:129-138 | reads as ReadUIntFrom says and keeps the rest |
| Rpc.Deserializer.ReadString | src/distributed/rpc.h:120-128 | reads as ReadStringFrom says and keeps the rest |
| Rpc.Deserializer.ReadStringView | src/distributed/rpc.h:110-119 | reads as ReadStringViewFrom says and keeps the rest |
| Rpc.ReadUIntAfterWrite | src/distributed/rpc.h:33-36 | a value written by the serializer is read back by the deserializer, followed by what was written after it |
| Rpc.ReadStringAfterWrite | src/distributed/rpc.h:38-41 | a string written by the serializer is read back whole, followed by what was written after it |
| Rpc.EncodeStatus | src/distributed/rpc.h:591 | a uint8_t status is written as the single status byte |
| Rpc.Handle | src/distributed/rpc.h:577-610 | the server's reply to a request is the one ReplyFor describes: the id, then status 0 and the result, 0xfe when the function threw, or 0xff when no function has that name; the exception is rethrown after the 0xfe reply is sent, exactly when the client reads that reply as a remote exception |
| Rpc.ReadCall | src/distributed/rpc.h:579-584 | the server reads the request id and the function name, and the remaining bytes are the arguments |
| Rpc.WriteReply | src/distributed/rpc.h:585-606 | the reply written through a serializer; after a throw the buffer is cleared and holds only the id and 0xfe, and the exception is rethrown (`rethrown`) exactly when the called function threw |
| Rpc.RemoteExceptionIffThrew | src/distributed/rpc.h:594-601 | a reply reads as a remote exception exactly when the server's function threw, which is when the server rethrows |
| Rpc.Response | src/distributed/rpc.h:319-343 | the client reads the id and the status: 0xff is "function not found", 0xfe a remote exception, another non-zero status a connection error, and 0 the result that follows |
| Rpc.CallRoundTrip | src/distributed/rpc.h:408-423 | a request the client writes reaches its future with the same id, as the function's result, as "function not found" when the name is not defined, or as a remote exception when the function threw |
| Rpc.WriteRequest | src/distributed/rpc.h:409-412 | the request is the id, the function name and then the arguments |
| Rpc.Client.constructor | src/distributed/rpc.h:450-458 | a new client has sent nothing and waits for nothing |
| Rpc.Client.Async | src/distributed/rpc.h:407-423 | the 32-bit counter is incremented with wrap-around and names the request sent; a call whose result is awaited is recorded as pending; the call count grows by one |
| Rpc.Client.OnMessage | src/distributed/rpc.h:319-344 | a reply resolves its pending request exactly once, with the outcome its status names, and removes it; a reply for no pending request changes nothing |
| Rpc.Client.OnConnectionClosed | src/distributed/rpc.h:345-352 | a closed connection fails every pending request and leaves none pending |
| Network.Find | src/distributed/network.cc:178-186 | `find` from a position: the first index at or after it holding the character, or none when no such index exists |
| Network.LeadingDigits | src/distributed/network.cc:191-198 | the longest run of decimal digits at the front of the text |
| Network.LeadingDigitsAre | src/distributed/network.cc:191-198 | a digit prefix followed by a non-digit, or by the end, is that longest run |
| Network.DecodeEndpoint | src/distributed/network.cc:175-201 | `decodeEndpoint` as written: the bracketed host if any, else the text before ':'; the port read from the digits after ':', 0 when there is no ':' |
| Network.ReadPort | src/distributed/network.cc:190-198 | the loop accumulates the decimal value of the digits after ':' up to the first non-digit |
| Network.NoColon | src/distributed/network.cc:186-200 | an endpoint with neither '[' nor ':' is all host name, with port 0 |
| Network.PlainRoundTrip | src/distributed/network.cc:175-201 | "host:port" decodes back to that host and port for a host without '[' or ':' |
| Network.FindAt | src/distributed/network.cc:186 | `find` returns the first occurrence |
| Network.BracketedSplit | src/distributed/network.cc:178-185 | "[host]tail" gives the host between the brackets and the tail after ']' |
| Network.PortAfterColon | src/distributed/network.cc:186-198 | in "a:digits" with no ':' in a, the colon is found right after a and the digits read back as the port |
| Network.BracketedRoundTrip | src/distributed/network.cc:175-201 | "[host]:port" decodes to that host and port under the intended reading, and as written unless the host is the same text as ":port" |
| Network.BracketedHostLost | src/distributed/network.cc:186-189 | as written, "[a:1]a:1" decodes to host "a" instead of "a:1", because the bracketed host equals the text after ']' and is cut at its ':' |
| Network.ReadingsAgree | src/distributed/network.cc:175-201 | the written and the intended decoding agree on every endpoint except those whose bracketed host equals the text after ']' |
| Network.Buffer.constructor | src/distributed/network.cc:144-151 | a new socket buffer of fixed size holds nothing |
| Network.Buffer.Space | src/distributed/network.cc:152-154 | the room left is what lies between the end of the held bytes and the end of the array |
| Network.Buffer.Append | src/distributed/network.cc:155-160 | copies as many bytes as fit, returns how many, and appends exactly those after the held bytes |
| Network.Buffer.Free | src/distributed/network.cc:161-163 | drops exactly the given number of held bytes from the front |
| Network.Buffer.Size | src/distributed/network.cc:167-169 | the size is the number of bytes held |
| Hex.IndexToCell | src/games/hex.h:212-216 | a cell index on the board converts to a row and a column on the board |
| Hex.CellIndexInverse | src/games/hex.h:212-221 | index-to-cell and cell-to-index are inverse on the board's cells and indices |
| Hex.ValidIndices | src/games/hex.h:269-274 | the valid candidates' indices, in order: at most as many as the candidates, each on the board |
| Hex.Neighbours | src/games/hex.h:262-276 | a cell has at most six neighbours, all on the board |
| Hex.NeighboursOfCell | src/games/hex.h:262-276 | the cell (i, j) has index i * SIZE + j, and its neighbour list is its six candidates filtered to the board |
| Hex.BorderConnection | src/games/hex.h:438-455 | a Black stone touches border 1 exactly in the first row and border 2 exactly in the last row; a White stone the first and last columns; no colour touches nothing |
| Hex.EmptyCellsAre | src/games/hex.h:404-406 | the empty cells are listed once each, in increasing order, and nothing else is listed |
| Hex.FillOne | src/games/hex.h:382-383 | putting a stone on one empty cell leaves one empty cell fewer, as the counter says |
| Hex.AllEmpty | src/games/hex.h:250-252 | on a cleared board every cell is empty, as the counter says |
| Hex.ColorToPlayer | src/games/hex.h:183-190 | no colour is the null player and only it; Black is player 0 and White player 1, swapped once the pie is taken |
| Hex.ColoredIffOccupied | src/games/hex.h:227-242 | a cell has a colour exactly when it is off the empty path 0, and likewise for its main path |
| Hex.Gather | src/games/hex.h:329-348 | the smallest main path gathered lies between 1 and the path end, and equals the path end exactly when no neighbour has the stone's colour |
| Hex.GatherSpec | src/games/hex.h:329-348 | the gathered paths are main paths of the stone's colour; the one kept is their minimum, or the path end when there is none; the borders are those of the stone and of the gathered paths |
| Hex.GatherMains | src/games/hex.h:329-348 | a path is gathered exactly when it is the main path of some neighbour of the stone's colour |
| Hex.Joined | src/games/hex.h:359-374 | joining groups leaves the path table's size unchanged |
| Hex.JoinedWellFormed | src/games/hex.h:359-374 | joining keeps the path table well formed: every path of a joined group now has the smallest main path, every other path keeps its main path, and no path changes colour |
| Hex.StoneEffect | src/games/hex.h:324-382 | after a stone the board is well formed; the cell takes the stone's colour and main path, and the other cells keep their colours; a cell whose group was joined moves to the stone's main path, others keep theirs; that main path carries the gathered borders; a lone stone gets the next new path |
| Hex.NewPathEffect | src/games/hex.h:352-356 | a stone that joins no group gets a new path of its own and the board stays well formed |
| Hex.JoinEffect | src/games/hex.h:359-374 | joining under the smallest main path keeps the board well formed and maps each cell's group as JoinedWellFormed says |
| Hex.StoneJoins | src/games/hex.h:324-382 | a stone joins exactly the groups around it: only the stone's cell changes colour, every neighbour of its colour ends in its group, a cell whose group changed is now in the stone's group and was in the group of a neighbour of that colour, and the stone's group carries the gathered borders |
| Hex.RoomForPath | src/games/hex.h:352-356 | when a neighbour has the stone's colour, the stone joins at least one group, so no new path is needed |
| Hex.SingleStoneBorders | src/games/hex.h:438-455 | on a board of two cells or more per side, a single stone never touches both of its colour's borders |
| Hex.InitialTracked | src/games/hex.h:248-288 | the reset board is well formed, every cell empty, no last move and no winner |
| Hex.StoneTracked | src/games/hex.h:324-385 | a stone on an empty cell keeps the play state (counter, last move, path table), and a winner is set only with a winning group |
| Hex.StonePlaced | src/games/hex.h:324-385 | a stone has room for its path, keeps the play state, and makes its colour the winner exactly when its group touches both borders |
| Hex.LoneStoneCannotWin | src/games/hex.h:352-356 | a stone that joins no group does not win on its own |
| Hex.TopLeftNeighbours | src/games/hex.h:262-276 | the top-left corner's neighbours are the cell to its right and the cell below, in that order |
| Hex.ValidIndicesHas | src/games/hex.h:269-274 | a valid cell's index is in the neighbour list exactly when the cell is among the candidates |
| Hex.NeighbourSymmetric | src/games/hex.h:262-276 | adjacency is symmetric: each of two cells is in the other's neighbour list |
| Hex.PlayersDistinct | src/games/hex.h:183-190 | the two colours belong to different players, and taking the pie swaps who owns each colour |
| Hex.Board.constructor | src/games/hex.h:171-173 | a new board, allocated and then reset: every cell empty, Black to move, no winner, no last move, no pie taken, one path (the empty one) |
| Hex.Board.Reset | src/games/hex.h:248-288 | the counters, turn and pie flag are reset, the neighbour table filled, every cell put on the empty path 0, and the board invariant set up |
| Hex.Board.ClearPathBoard | src/games/hex.h:285-287 | every cell is put on the empty path 0 |
| Hex.Board.FillNeighbours | src/games/hex.h:260-277 | the loops fill each cell's entry with its neighbour list |
| Hex.Board.Play | src/games/hex.h:290-388 | replaying the last stone while the pie rule allows it takes the pie and changes nothing else; otherwise the path table, board and path end become exactly AfterStone of the gathered neighbour groups (StonePut), so the stone joins exactly the groups around it, one empty cell fewer, the move is the last one, the turn passes, and the mover wins exactly when the gathered borders are both touched |
| Hex.Board.PlaceStone | src/games/hex.h:306-386 | the stone branch of play: the path table, board and path end become those AfterStone describes, the winner is set exactly when the gathered borders are both touched, and the turn passes |
| Hex.Board.SetStone | src/games/hex.h:350-382 | a new path for a lone stone, else the groups joined under the smallest main path, which makes its colour the winner when that path touches both borders; the cell gets the main path |
| Hex.Board.CollectNeighbours | src/games/hex.h:329-348 | the loop over the neighbour list computes Gather |
| Hex.Board.NewPath | src/games/hex.h:352-356 | writes the new path at the path end and advances the end by one |
| Hex.Board.JoinPaths | src/games/hex.h:359-374 | the main path takes the gathered borders, and every later path of another joined group becomes a copy of it |
| Hex.Board.FindLegalIndices | src/games/hex.h:400-410 | the legal moves are the empty cells in increasing order, then the last move when the pie rule allows it; there are as many as the counter says, and every empty cell is among them |
| Hex.Board.PieNeedsLastMove | src/games/hex.h:407-408 | when the pie rule applies, there is a last move, on a stone, to take over |
| Hex.Board.CanPie | src/games/hex.h:208-210 | defines `canPie`: the pie rule is on, exactly one stone has been played and the pie has not been taken; PieNeedsLastMove proves there is then a stone to take |
| Hex.Board.IsGameFinished | src/games/hex.h:200-202 | defines `isGameFinished`: no empty cell is left or a winner is set |
| Hex.Board.CurrentPlayer | src/games/hex.h:192-194 | the player of the colour to move, through ColorToPlayer, which swaps the players once the pie is taken |
| Hex.Board.WinnerPlayer | src/games/hex.h:196-198 | the player of the winning colour, through ColorToPlayer |
| Havannah.IndexToCell | src/games/havannah.h:235-240 | an index of the full square converts to a row and a column inside the square |
| Havannah.IsValidIndex | src/games/havannah.h:436-439 | a valid index lies in the full square of FULLSIZE x FULLSIZE indices |
| Havannah.CellIndexInverse | src/games/havannah.h:235-245 | index-to-cell and cell-to-index are inverse on the square's cells and indices |
| Havannah.ValidIndices | src/games/havannah.h:303-311 | the candidates kept by the validity filter: at most as many as the candidates, each an index of the square |
| Havannah.Neighbours | src/games/havannah.h:297-314 | a cell has at most six neighbours, each an index of the square |
| Havannah.ValidIndicesHas | src/games/havannah.h:306-310 | a valid cell's index is kept by the filter exactly when the cell is one of the candidates |
| Havannah.IndexInjective | src/games/havannah.h:242-245 | two cells of the square share an index only when they are the same cell |
| Havannah.NeighbourSymmetric | src/games/havannah.h:297-314 | of two valid cells, b is a neighbour of a exactly when a is a neighbour of b |
| Havannah.AroundSymmetric | src/games/havannah.h:303-305 | the six candidate offsets are closed under swapping the two cells |
| Havannah.CornerMask | src/games/havannah.h:554-577 | the corner mask of a cell has at most one bit, and is non-zero exactly on the six corners of the hexagon |
| Havannah.BorderMask | src/games/havannah.h:529-552 | the border mask of a cell has at most one bit, and is non-zero exactly on the rim cells that are not corners |
| Havannah.CellMasks | src/games/havannah.h:529-577 | no cell is both on a side and a corner, and a cell off the rim has neither |
| Havannah.TwoCorners | src/games/havannah.h:554-577 | two distinct corners set two different corner bits |
| Havannah.SideAndCornerCases | tests/havannah-tests.cc:310-391 | the corner and side masks the tests expect on the board of edge 8, at the centre and around each corner |
| Havannah.NbOnesCounts | src/games/havannah.h:579-592 | the bit count looks at the six low bits only |
| Havannah.NbOnesBounds | src/games/havannah.h:579-592 | adding bits never lowers the count, and a mask of at most one bit counts at most one |
| Havannah.HexagonCells | src/games/havannah.h:284-286 | the number of valid cells of the square is FULLSIZE * FULLSIZE - (SIZE - 1) * SIZE, the playable count reset() sets |
| Havannah.ColoredIffOccupied | src/games/havannah.h:252-268 | on a well-formed board a cell has no colour, and path 0, exactly when its path index is 0 |
| Havannah.EmptyCellsAre | src/games/havannah.h:441-451 | the empty cells are exactly the valid indices whose path is 0, in increasing order |
| Havannah.FillOne | src/games/havannah.h:441-451 | filling one empty valid cell removes exactly one empty cell |
| Havannah.AllEmpty | src/games/havannah.h:322-324 | on a cleared board every valid cell is empty |
| Havannah.ColorToPlayer | src/games/havannah.h:206-213 | a colour maps to no player exactly when it is no colour |
| Havannah.PlayersDistinct | src/games/havannah.h:206-213 | the two colours map to different players, and taking the pie swaps them |
| Havannah.Groups | src/games/havannah.h:367-385 | the least main path among the neighbours is at most the next free path, and equals it exactly when no neighbour has the stone's colour |
| Havannah.GroupsSpec | src/games/havannah.h:367-385 | the gathered main paths are live main paths of the stone's colour, and the least of them is their minimum |
| Havannah.GroupsMains | src/games/havannah.h:367-385 | a path is gathered exactly when it is the main path of some neighbour of the stone's colour |
| Havannah.Gather | src/games/havannah.h:363-385 | the gathered least path is at most the next free path, and equals it exactly when nothing is gathered |
| Havannah.GatherSpec | src/games/havannah.h:363-385 | the gathered paths are live main paths of the colour, and the least of them is their minimum |
| Havannah.GatherMains | src/games/havannah.h:367-385 | a path is gathered exactly when it is the main path of a same-coloured neighbour |
| Havannah.GatherHas | src/games/havannah.h:376-382 | every same-coloured neighbour's borders and corners are included in the gathered masks |
| Havannah.GatherMasks | src/games/havannah.h:363-385 | the gathered masks include the stone's own, and equal them when nothing is gathered |
| Havannah.Joined | src/games/havannah.h:397-413 | joining paths keeps the number of path slots |
| Havannah.JoinedWellFormed | src/games/havannah.h:397-413 | joining keeps the path table well formed, moves every path of a joined group to the least main path, and keeps each path's colour |
| Havannah.StoneEffect | src/games/havannah.h:387-413 | a stone is placed with the gathered masks, on a new path or the joined one, and the other cells keep their colour |
| Havannah.NewPathEffect | src/games/havannah.h:389-394 | a stone with no same-coloured neighbour starts a new main path holding its own masks, and nothing else changes |
| Havannah.JoinEffect | src/games/havannah.h:397-413 | a stone touching groups of its colour joins them under the least main path, which gets the union of their masks |
| Havannah.StoneJoins | src/games/havannah.h:387-413 | after a stone the board is well formed, only the stone's cell changes colour, the stone and every same-coloured neighbour share the least of their main paths, a cell whose group changed was in the group of a neighbour of that colour, and that path holds all their masks |
| Havannah.PathCells | src/games/havannah.h:594-605 | the cells listed for a path are board cells |
| Havannah.PathCellsAre | src/games/havannah.h:594-605 | the listed cells are exactly the cells whose main path is the given one, in increasing order |
| Havannah.CountColoredAll | src/games/havannah.h:607-618 | at most all neighbours are counted, and all are exactly when every one has the colour |
| Havannah.SurroundedIsInterior | src/games/havannah.h:515-523 | a cell is surrounded exactly when it has six neighbours, all of the colour |
| Havannah.StoneMasks | src/games/havannah.h:529-577 | one cell contributes at most one border and at most one corner |
| Havannah.LoneStoneCannotWin | src/games/havannah.h:389-394 | a stone that starts a new path cannot win: one cell is neither a fork, a bridge nor a cycle |
| Havannah.SmallPathCannotWin | src/games/havannah.h:480-527 | a path of at most one cell with at most one border and one corner does not win |
| Havannah.InitialTracked | src/games/havannah.h:282-325 | the reset board keeps the board invariant: empty count, empty paths, no winner |
| Havannah.RoomForPath | src/games/havannah.h:389-394 | while a cell is empty there is a free path slot for a new path |
| Havannah.StoneTracked | src/games/havannah.h:327-426 | a stone on an empty cell of an unfinished game keeps the board invariant, with one fewer empty cell and the stone as last move |
| Havannah.StoneOutcome | src/games/havannah.h:387-417 | a placed stone leaves a well-formed board whose paths, masks and winner are as the stone decides |
| Havannah.Board.constructor | src/games/havannah.h:193-195 | a new board, allocated and then reset (reset() is called by the game before play): Black to play, no winner, no pie, one path in use |
| Havannah.Board.Reset | src/games/havannah.h:282-325 | the playable count, every cell empty, the neighbour table, Black to play, no winner, no last move, one path in use |
| Havannah.Board.ClearPathBoard | src/games/havannah.h:322-324 | every cell's path index becomes 0 |
| Havannah.Board.FillNeighbours | src/games/havannah.h:297-314 | every cell's neighbour row becomes its list of valid neighbours |
| Havannah.Board.Play | src/games/havannah.h:327-426 | replaying the last move takes the pie and changes nothing else; otherwise one fewer empty cell, the stone as last move, the other colour to play, and the path table, board, winner and cycle exactly as StoneSet describes the stone placed, joined and judged (StoneMoved) |
| Havannah.Board.PlayStone | src/games/havannah.h:344-426 | the stone branch of play: one empty cell fewer, the stone is the last move, the turn passes, and the path table, board, winner and cycle are exactly those StoneSet describes, which StoneOutcome reads as the fork, bridge or cycle verdict on the stone's joined group |
| Havannah.Board.TakePie | src/games/havannah.h:332-334 | the pie branch of play: the pie is taken |
| Havannah.Board.RelinkPaths | src/games/havannah.h:406-411 | the loop replaces every path after the main path whose main path is one of the other joined groups by the main path, and keeps every other path |
| Havannah.Board.PlaceStone | src/games/havannah.h:345-426 | the stone is placed on a free path or joined, the winner and cycle are decided, and the turn passes |
| Havannah.Board.SetStone | src/games/havannah.h:387-413 | the path table and board become the reference placement of the stone |
| Havannah.Board.CollectNeighbours | src/games/havannah.h:363-385 | returns the reference gathering of the stone's same-coloured neighbours |
| Havannah.Board.NewPath | src/games/havannah.h:389-394 | the next free path becomes a main path of the colour with the given masks |
| Havannah.Board.JoinPaths | src/games/havannah.h:397-413 | the path table becomes the reference joining under the least main path |
| Havannah.Board.UpdateWinner | src/games/havannah.h:415-417 | the stone's colour wins exactly when the joined path is a fork, a bridge or a cycle |
| Havannah.Board.IsWinningPath | src/games/havannah.h:480-502 | a path wins with three sides, two corners or a cycle; a cycle that is neither fork nor bridge is recorded |
| Havannah.Board.IsCycle | src/games/havannah.h:504-527 | the path forms a cycle as the reference predicate decides (six cells, two same-coloured neighbours, a surrounded cell or a hole) |
| Havannah.Board.FindPathIndices | src/games/havannah.h:594-605 | returns the cells of the path, in increasing order |
| Havannah.Board.ComputeNbNeighbours | src/games/havannah.h:607-618 | returns the number of neighbours of the colour |
| Havannah.Board.FindLegalIndices | src/games/havannah.h:441-451 | the empty valid cells in order, then the last move when the pie is open; as many as the empty count plus the pie |
| Havannah.Board.PieNeedsLastMove | src/games/havannah.h:231-233 | while the pie is open there is a last move, on an occupied valid cell |
| Havannah.Board.CanPie | src/games/havannah.h:231-233 | defines `canPie`: the pie rule is on, exactly one stone has been played and the pie has not been taken; PieNeedsLastMove proves there is then a stone to take |
| Havannah.Board.IsGameFinished | src/games/havannah.h:223-225 | defines `isGameFinished`: no empty cell is left or a winner is set |
| Havannah.Board.CurrentPlayer | src/games/havannah.h:215-217 | the player of the colour to move, through ColorToPlayer, which swaps the players once the pie is taken |
| Havannah.Board.WinnerPlayer | src/games/havannah.h:219-221 | the player of the winning colour, through ColorToPlayer |
| Havannah.Board.FindWinnerPath | src/games/havannah.h:453-478 | the winning path has the winner's colour: the recorded cycle when there is one, otherwise the first fork or bridge; returns its cells |
| Havannah.Board.FirstForkOrBridge | src/games/havannah.h:462-472 | returns the first path that is a fork or a bridge |
| Chessboard.SquareBound | src/games/commons/chessboard.h:122-125 | a square on the board has a number between 0 and the number of squares |
| Chessboard.IsPosInBoard | src/games/commons/chessboard.h:111-114 | defines `isPosInBoard(x, y)`: 0 <= x < rows and 0 <= y < columns |
| Chessboard.PosTo1D | src/games/commons/chessboard.h:122-125 | defines `posTo1D`: rows * y + x; SquareBound and PosRoundTrip prove it numbers the squares of the board one to one |
| Chessboard.PosTo2D | src/games/commons/chessboard.h:127-130 | defines `posTo2D` with C++ division and remainder, which truncate toward zero; IndexRoundTrip proves it inverts PosTo1D on the board |
| Chessboard.IsIndexInBoard | src/games/commons/chessboard.h:116-120 | defines `isPosInBoard(xy)` as the test of the taken-apart square; IndexInBoardIff proves it holds exactly for 0 <= xy < rows * columns |
| Chessboard.PosRoundTrip | src/games/commons/chessboard.h:122-130 | numbering a square and taking the number apart gives the square back |
| Chessboard.IndexRoundTrip | src/games/commons/chessboard.h:116-130 | every number of a square is on the board and is the number of the square it names |
| Chessboard.IndexInBoardIff | src/games/commons/chessboard.h:116-120 | a number is on the board exactly when it is between 0 and the number of squares; negative numbers are refused |
| Chessboard.PosStr | src/games/commons/chessboard.h:270-282 | a square's name is a letter and then one rank digit, or two when there are ten or more ranks |
| Chessboard.SkipSpaces | src/games/commons/chessboard.h:289-296 | the first position from i on that is not white space, with only white space skipped |
| Chessboard.SkipDigits | src/games/commons/chessboard.h:303-307 | the first position from i on that is not a digit, with only digits skipped |
| Chessboard.Tokens | src/games/commons/chessboard.h:287-316 | an accepted name gives a letter and a non-empty run of digits inside the string |
| Chessboard.TokensOfPosStr | src/games/commons/chessboard.h:270-316 | the scan of a square's name finds its letter and all its digits |
| Chessboard.RankDigits | src/games/commons/chessboard.h:273-280 | the rank written in a name is between 1 and the number of ranks, and its digits read back as it |
| Chessboard.IntendedPosStrRoundTrip | src/games/commons/chessboard.h:270-325 | with the rank read as a whole number, a square's name reads back as that square |
| Chessboard.PosStrRoundTrip | src/games/commons/chessboard.h:270-325 | with the rank cut to 32 bits as written, a square's name still reads back as that square |
| Chessboard.IntendedParsedPosOnBoard | src/games/commons/chessboard.h:285-325 | whatever the intended reading accepts is a square of the board, named by its letter and its rank digits |
| Chessboard.MalformedRefused | src/games/commons/chessboard.h:287-316 | a name that is not spaces, a letter, spaces, digits and spaces is refused by both readings |
| Chessboard.TruncatedRankAccepted | src/games/commons/chessboard.h:318-319 | on an 8 by 8 board counted from the far side the name A4294967304 is read as A8 as written, and refused by the intended reading |
| Chessboard.ScanPosStr | src/games/commons/chessboard.h:287-316 | the character loop finds exactly the reference tokens, or refuses exactly when they do not exist |
| Chessboard.ParsePosStr | src/games/commons/chessboard.h:285-325 | returns the reading of the name as written, and only squares of the board |
| Chessboard.KeyIndexBound | src/games/commons/chessboard.h:352-354 | the key index squares * chess + xy lies inside the key table |
| Chessboard.PrefixHashIsWord | src/games/commons/chessboard.h:345-354 | a hash folded from 64-bit keys is a 64-bit word |
| Chessboard.PrefixHashUpdate | src/games/commons/chessboard.h:345-354 | replacing one piece changes the hash of every prefix holding that square by the old piece's key and the new one's, and no other prefix |
| Chessboard.BoardHashUpdate | src/games/commons/chessboard.h:177-182 | folding the old key out and the new key in gives the full recomputed hash of the changed board |
| Chessboard.KindCounts | src/games/commons/chessboard.h:184-190 | one count per kind, each the number of squares holding that kind |
| Chessboard.KindCountsAppend | src/games/commons/chessboard.h:187-188 | one more square holding a kind adds one to that kind's count and nothing else |
| Chessboard.CountsTotal | src/games/commons/chessboard.h:184-190 | when every square holds a known kind, the counts add up to the number of squares |
| Chessboard.TurnFlips | src/games/commons/chessboard.h:192-195 | toggling the side-to-move key flips the side folded in, and toggling twice gives the hash back |
| Chessboard.KeptHashUpdate | src/games/commons/chessboard.h:177-195 | changing a square commutes with the side-to-move key already folded in |
| Chessboard.Board.constructor | src/games/commons/chessboard.h:94-109 | the key table and the side-to-move key are those given, the board is empty and no side is folded in |
| Chessboard.Board.RecomputeHash | src/games/commons/chessboard.h:344-349 | the hash becomes the full recompute of the board, with no side to move folded in |
| Chessboard.Board.Initialize | src/games/commons/chessboard.h:149-153 | every square is emptied and the hash is the recompute of the empty board |
| Chessboard.Board.InitializeFrom | src/games/commons/chessboard.h:155-160 | the squares are copied from the given board and the hash is recomputed |
| Chessboard.Board.SetChess | src/games/commons/chessboard.h:177-182 | one square changes; the hash folds out the old key and folds in the new one, and stays the full recompute |
| Chessboard.Board.SetChessAt | src/games/commons/chessboard.h:172-175 | only the square numbered rows * y + x changes |
| Chessboard.Board.TurnHash | src/games/commons/chessboard.h:192-195 | the side-to-move key is toggled in the hash |
| Chessboard.Board.CountChesses | src/games/commons/chessboard.h:184-190 | returns the reference counts per kind, which add up to the number of squares |
| Chessboard.Board.GetChess | src/games/commons/chessboard.h:167-170 | reads the piece on the square numbered xy |
| Chessboard.Board.SameAs | src/games/commons/chessboard.h:328-333 | defines `operator==`: the same hash and the same squares |
| WeakSchur.HitUpToIff | games/weakschur/WeakSchur.cpp:120-130 | the numbers the second loop of applyAction removes are exactly the sums and differences of the placed number with the subset's numbers seen so far |
| WeakSchur.HitUpToAll | games/weakschur/WeakSchur.cpp:120-130 | over all numbers, the removed numbers are all sums and differences with the subset's numbers |
| WeakSchur.ScoreOfFirst | games/weakschur/WeakSchur.cpp:135-137 | with only number 1 placed, the score is 1 |
| WeakSchur.WeakSchur.constructor | games/weakschur/WeakSchur.cpp:13-23 | the sizes are kept and the game is reset: number 1 in subset 1, score 1 |
| WeakSchur.WeakSchur.Reset | games/weakschur/WeakSchur.cpp:25-34 | every action of numbers 2.. is free, subset 1 holds number 1 alone, the score is 1, and the counters match the table |
| WeakSchur.WeakSchur.IsTerminated | games/weakschur/WeakSchur.cpp:36-38 | the game is over exactly when every number is placed or the first unplaced number has no free subset |
| WeakSchur.WeakSchur.GetScore | games/weakschur/WeakSchur.cpp:40-42 | the score n is the longest prefix 1..n of placed numbers |
| WeakSchur.WeakSchur.GetFirstLegalNumber | games/weakschur/WeakSchur.cpp:44-47 | the smallest unplaced number |
| WeakSchur.WeakSchur.GetMostConstrainedNumber | games/weakschur/WeakSchur.cpp:49-61 | as written: among the first unplaced number and the later numbers below maxNumber with a free subset, the first with the fewest free subsets |
| WeakSchur.WeakSchur.GetMostConstrainedNumberIntended | games/weakschur/WeakSchur.cpp:49-61 | the same choice with maxNumber itself among the candidates |
| WeakSchur.WeakSchur.GetLegalSubsets | games/weakschur/WeakSchur.cpp:63-75 | the free subsets of the number, ascending, where a subset above 2 is offered only once the subset before it holds a number |
| WeakSchur.WeakSchur.GetLongestSeq | games/weakschur/WeakSchur.cpp:77-97 | as written: the longest run of the subset's numbers that a number outside it closes, and how many closed runs reach that length |
| WeakSchur.WeakSchur.GetLongestSeqIntended | games/weakschur/WeakSchur.cpp:77-97 | the same with the run that reaches maxNumber compared as well |
| WeakSchur.WeakSchur.RemoveAction | games/weakschur/WeakSchur.cpp:141-151 | a free action in range is cleared and both counters drop by one; anything else changes nothing |
| WeakSchur.WeakSchur.ApplyAction | games/weakschur/WeakSchur.cpp:99-139 | the number is stored in the subset; its column is closed; its sums and differences with the subset's numbers are no longer free there; the counters follow; the partition stays weak Schur |
| WeakSchur.WeakSchur.UpdateNumberData | games/weakschur/WeakSchur.cpp:120-130 | the sums and differences with the subset's numbers are cleared in that subset, and its free-number counter drops once per number of the subset |
| WeakSchur.WeakSchur.ClearColumn | games/weakschur/WeakSchur.cpp:113-117 | every subset of the number is closed, the free-action total drops by its free count, and that count becomes 0 |
| WeakSchur.WeakSchur.Place | games/weakschur/WeakSchur.cpp:118-137 | the number is stored, the subset's size grows by one, and the score advances over the placed prefix |
| WeakSchur.MaxRunIsLongest | games/weakschur/WeakSchur.cpp:77-97 | the reported length is at least every closed run, and is reached by one unless it is 0 |
| WeakSchur.CountRunsAbove | games/weakschur/WeakSchur.cpp:86-92 | no run is counted at a length above the longest |
| WeakSchur.IntendedCoversEveryRun | games/weakschur/WeakSchur.cpp:77-97 | with the last run compared, every run of the subset is at most the reported length |
| WeakSchur.TrailingRunMissed | games/weakschur/WeakSchur.cpp:77-97 | with maxNumber 1 after reset, subset 1 holds the run {1}; as written the scan reports no run, the intended scan reports it |
| WeakSchur.MaxNumberOverlooked | games/weakschur/WeakSchur.cpp:53 | with free counts [0, 3, 0, 0, 2], the scan as written picks number 2 though number 5 is more constrained; the intended scan picks 5 |
| WeakSchur.CountClear | games/weakschur/WeakSchur.cpp:146-149 | clearing a free action lowers its number's count by one |
| WeakSchur.TotalUpdate | games/weakschur/WeakSchur.cpp:114-116 | changing one row of the table changes the free total by the change of that row's count |
| WeakSchur.CountInPlace | games/weakschur/WeakSchur.cpp:118-133 | placing an unplaced number in a subset adds one to that subset's size and changes no other |
| WeakSchur.FreshOK | games/weakschur/WeakSchur.cpp:25-33 | the table reset() builds before placing 1 has its counters right and no placed number |
| WeakSchur.PlaceKeeps | games/weakschur/WeakSchur.cpp:99-139 | placing a number keeps every number in range, the subset sizes right and the partition weak Schur |
| WeakSchur.ClearKeeps | games/weakschur/WeakSchur.cpp:113-117 | closing a number's column keeps the counters right and the partition guarded |
| WeakSchur.RemoveKeeps | games/weakschur/WeakSchur.cpp:141-151 | clearing one free action keeps the counters right and the partition guarded |
| WeakSchur.SumFreeAfterPlace | games/weakschur/WeakSchur.cpp:99-137 | a number still free in a subset is neither the sum of two of its numbers nor a summand with one of them of a third, so placing it keeps the subset sum-free |
| WeakSchur.PlaceKeepsGuard | games/weakschur/WeakSchur.cpp:113-133 | after its column is closed and its sums and differences removed, placing the number keeps every column closed and every pair guarded |
| NoGoBitBoard.WordOf | games/nogo_bitboard.h:52 | a position up to 127 lies in word 0 or word 1 |
| NoGoBitBoard.BitOf | games/nogo_bitboard.h:52 | a position's bit number in its word is below 64 |
| NoGoBitBoard.NoGoBitBoard.constructor | games/nogo_bitboard.h:24-26 | a new board has both words cleared |
| NoGoBitBoard.NoGoBitBoard.Reset | games/nogo_bitboard.h:27-30 | both words become 0 |
| NoGoBitBoard.NoGoBitBoard.Assign | games/nogo_bitboard.h:32-36 | both words are copied from the other board |
| NoGoBitBoard.NoGoBitBoard.Count | games/nogo_bitboard.h:38-49 | the bit trick returns the number of set bits of the two words, at most 128 |
| NoGoBitBoard.NoGoBitBoard.GetPosition | games/nogo_bitboard.h:51-53 | returns whether the position's bit is set in its word |
| NoGoBitBoard.NoGoBitBoard.DeletePosition | games/nogo_bitboard.h:55-57 | the words become the reference deletion of the position |
| NoGoBitBoard.NoGoBitBoard.AddPosition | games/nogo_bitboard.h:59-61 | the words become the reference addition of the position |
| NoGoBitBoard.NoGoBitBoard.UnionWith | games/nogo_bitboard.h:63-67 | each word is or-ed with the other board's word |
| NoGoBitBoard.NoGoBitBoard.IsEmpty | games/nogo_bitboard.h:69-71 | holds exactly when the two words have no set bit |
| NoGoBitBoard.NoGoBitBoard.CheckIsOne | games/nogo_bitboard.h:73-81 | the two's-complement test holds exactly when the two words hold one set bit between them |
| NoGoBitBoard.MaskDistinct | games/nogo_bitboard.h:52-61 | two positions of the same word have masks with no bit in common |
| NoGoBitBoard.AddedHas | games/nogo_bitboard.h:59-61 | after adding a position it is set, and every other position is as it was |
| NoGoBitBoard.DeletedHas | games/nogo_bitboard.h:55-57 | after deleting a position it is clear, and every other position is as it was |
| NoGoBitBoard.UnionHas | games/nogo_bitboard.h:63-67 | a position is set in the union exactly when it is set in either board |
| NoGoBitBoard.HasCounted | games/nogo_bitboard.h:38-52 | a board holding a position counts at least one |
| NoGoBitBoard.ResetEmpty | games/nogo_bitboard.h:27-30 | after a reset no position is set |
| NoGoBitBoard.Level1 | games/nogo_bitboard.h:40-41 | after the first round the 2-bit fields add up to the word's bit count |
| NoGoBitBoard.TwoRounds | games/nogo_bitboard.h:40-43 | after two rounds the 4-bit fields add up to the word's bit count, each at most 4 |
| NoGoBitBoard.Merge | games/nogo_bitboard.h:44 | adding the two words field by field adds their counts, with no carry between fields |
| NoGoBitBoard.SwarIsPop | games/nogo_bitboard.h:38-49 | the whole bit trick gives the number of set bits of both words, at most 128 |
| NoGoBitBoard.PopBound | games/nogo_bitboard.h:38-49 | a word has at most 64 set bits |
| NoGoBitBoard.PopZeroOne | games/nogo_bitboard.h:74-79 | a word has no set bit exactly when it is 0, and one exactly when keeping its lowest bit keeps all of it |
| NoGoBitBoard.CheckIsOneIsPop | games/nogo_bitboard.h:73-81 | the test holds exactly when the two words hold one set bit between them |
| NoGoPosition.Ordinal | src/games/nogo_position.h:20-30 | the enumerators are numbered 0 to 8, and 8 only for SYMMETRY_SIZE |
| NoGoPosition.ListNumbers | src/games/nogo_position.h:33-41 | the i-th entry of the symmetry list is the symmetry numbered i |
| NoGoPosition.TypeString | src/games/nogo_position.h:53-55 | the name of a symmetry is one of the eight names |
| NoGoPosition.NamesDistinct | src/games/nogo_position.h:43-51 | no two symmetries share a name |
| NoGoPosition.GetSymmetryType | src/games/nogo_position.h:57-64 | returns SYMMETRY_SIZE exactly when the text is no symmetry's name, and otherwise the symmetry of that name |
| NoGoPosition.NameRoundTrip | src/games/nogo_position.h:53-64 | looking up the name of a symmetry gives the symmetry back |
| NoGoPosition.Reverse | src/games/nogo_position.h:66-74 | the reverse of a symmetry is a symmetry |
| NoGoPosition.ReverseInvolution | src/games/nogo_position.h:66-74 | reversing twice gives the symmetry back |
| NoGoPosition.ImageOnBoard | src/games/nogo_position.h:110-156 | every symmetry maps the 9x9 board onto itself |
| NoGoPosition.ImageReverse | src/games/nogo_position.h:66-156 | the reverse symmetry maps every image back to its point |
| NoGoPosition.QuarterTurns | src/games/nogo_position.h:124-131 | two quarter turns make a half turn, and two half turns make no turn |
| NoGoPosition.PositionRoundTrip | src/games/nogo_position.h:88-109 | taking a position apart with C++ division and remainder and numbering it again gives it back, negative positions included |
| NoGoPosition.CoordinatesRoundTrip | src/games/nogo_position.h:88-109 | a point of the board has a position below 81, and that position names the point |
| NoGoPosition.PositionOnBoard | src/games/nogo_position.h:88-91 | a position below 81 names a point of the board |
| NoGoPosition.SymmetricPositionReverse | src/games/nogo_position.h:66-156 | each symmetry permutes the 81 positions: it stays on the board and its reverse undoes it |
| NoGoPosition.Point.constructor | src/games/nogo_position.h:84-87 | the point has the given column and row |
| NoGoPosition.Point.FromPosition | src/games/nogo_position.h:88-91 | the point has the column and row of the position, on the board when the position is below 81, and numbers back to it |
| NoGoPosition.Point.Assign | src/games/nogo_position.h:98-102 | the column and row are copied from the other point |
| NoGoPosition.Point.Equals | src/games/nogo_position.h:92-94 | defines `operator==`: the same column and the same row |
| NoGoPosition.Point.NotEquals | src/games/nogo_position.h:95-97 | defines `operator!=` as the negation of `operator==` |
| NoGoPosition.Point.AssignPosition | src/games/nogo_position.h:103-106 | the point becomes the point of the position |
| NoGoPosition.Point.GetPosition | src/games/nogo_position.h:107-109 | a point of the board numbers to a position below 81 that names it back |
| NoGoPosition.Point.ToSymmetryOf | src/games/nogo_position.h:110-156 | the point moves to its image under the symmetry about the centre (4, 4) |
| NoGoPosition.Point.MinusX | src/games/nogo_position.h:159-161 | the column is negated, the row kept |
| NoGoPosition.Point.MinusY | src/games/nogo_position.h:162-164 | the row is negated, the column kept |
| NoGoPosition.Point.ChangeXY | src/games/nogo_position.h:165-169 | the column and the row are swapped |
| NoGoPosition.Point.Shift | src/games/nogo_position.h:170-174 | the centre (4, 4) moves to the origin |
| NoGoPosition.Point.ShiftBack | src/games/nogo_position.h:175-179 | the origin moves back to the centre |
| MctsNode.LowerBound | src/mcts/node.cc:41-42 | the first position whose action is not below the given one: every action before it is below, and on a sorted list every action from it on is not |
| MctsNode.Node.constructor | src/mcts/storage.h:25-29 | a node laid out by the storage under its id, with no parent, no children and not visited |
| MctsNode.Node.Init | src/mcts/node.cc:15-27 | the children and the visited flag are cleared and the parent is set |
| MctsNode.Node.NewChild | src/mcts/node.cc:39-45 | the child is initialised under this node and stored at the lower bound of its action; the child is returned |
| MctsNode.Node.GetChild | src/mcts/node.cc:51-55 | a child returned is stored under the action |
| MctsNode.InsertSorted | src/mcts/node.cc:41-43 | inserting at the lower bound keeps the children sorted by action and adds one entry |
| MctsNode.LookupIff | src/mcts/node.cc:51-55 | on a sorted list a lookup finds a child exactly when one is stored under the action, and then the first one stored under it |
| MctsNode.LookupInserted | src/mcts/node.cc:39-55 | right after a child is stored under an action, looking the action up finds that child |
| MctsNode.InsertEntries | src/mcts/node.cc:41-43 | the entries before the lower bound stay, the new entry is at the lower bound, and the rest move one place on |
| MctsNode.LookupOther | src/mcts/node.cc:39-55 | storing a child under one action leaves the lookup of every other action as it was |
| MctsNode.LookupBelow | src/mcts/node.cc:39-55 | an action below the inserted one keeps its lookup |
| MctsNode.LookupAbove | src/mcts/node.cc:39-55 | an action above the inserted one keeps its lookup, its lower bound moved one place on |
| MctsNode.PostOrderHasAll | src/mcts/node.cc:57-63 | the ids freed from a subtree include every child's subtree, and the node's own id comes last |
| MctsNode.FreeTree | src/mcts/node.cc:57-63 | every node of the subtree goes back to the storage, children in list order and then the node, and exactly their flags are cleared |
| MctsStorage.RoundedCapacity | src/mcts/storage.h:20-21 | the capacity rounded up to a whole number of groups of 256 |
| MctsStorage.Storage.constructor | src/mcts/storage.h:19-30 | the rounded capacity of ids, none assigned, all on the free list in increasing order |
| MctsStorage.Storage.NewNode | src/mcts/storage.h:35-54 | the last free id is taken and marked assigned; with no free id a group of 256 is added first and its last id is taken |
| MctsStorage.Storage.Grow | src/mcts/storage.h:37-46 | one more group: its 256 ids unassigned and listed in increasing order |
| MctsStorage.Storage.FreeNode | src/mcts/storage.h:60-66 | an assigned id is marked free and pushed on the free list |
| MctsStorage.Storage.GetNumFreeNode | src/mcts/storage.h:56-58 | the length of the free list; FreePlusAssigned proves it is the capacity minus the assigned nodes |
| MctsStorage.RemoveAt | src/mcts/storage.h:48-49 | taking one id off the free list leaves the other ids, each once |
| MctsStorage.FreeCount | src/mcts/storage.h:56-58 | whatever the order of the free list, the free ids and the assigned ids add up to the capacity |
| MctsStorage.FreePlusAssigned | src/mcts/storage.h:56-58 | in a storage that keeps its invariant, the number of free nodes plus the assigned ones is 256 per group |
| ConnectFour.CurrentPlayer | core/state.h:138-149 | the player to move is 0 or 1: 1 after a turn or win of player 1, 0 otherwise, ties included |
| ConnectFour.RunCells | games/connectfour.h:111-125 | the counted run after a cell is made of the player's pieces |
| ConnectFour.RunEnds | games/connectfour.h:111-125 | the cell just after the counted run does not hold the player's piece |
| ConnectFour.RunAtLeast | games/connectfour.h:111-125 | whenever the k cells after a cell hold the player's pieces, the count is at least k |
| ConnectFour.RunsWinIff | games/connectfour.h:111-129 | the counts on both sides of a piece reach 3 exactly when four of the player's pieces in a line pass through it |
| ConnectFour.WinsIff | games/connectfour.h:126-129 | a move wins exactly when it completes four in a line across, up, or along either diagonal |
| ConnectFour.LegalColumns | games/connectfour.h:92-100 | the legal columns are exactly the columns not filled to the top, in increasing order |
| ConnectFour.NoLegalColumnIff | games/connectfour.h:135-136 | no column is open exactly when every column is filled to the top |
| ConnectFour.HashStep | games/connectfour.h:109-110 | one hash step stays a 64-bit word |
| ConnectFour.FullBoard | games/connectfour.h:135-136 | when no column is open, every cell holds a piece |
| ConnectFour.StackedDrop | games/connectfour.h:104-108 | dropping a piece on top of an open column keeps every column stacked from the bottom |
| ConnectFour.AllOpen | games/connectfour.h:92-100 | while no column is full, all columns are legal, in order |
| ConnectFour.StateForConnectFour.constructor | games/connectfour.h:31-55 | a new game after Initialize(): an empty board, every height 0, player 0 to move, all seven columns legal |
| ConnectFour.StateForConnectFour.Initialize | games/connectfour.h:35-55 | an empty board, every height 0, player 0 to move, the FNV offset basis as hash, all seven columns legal |
| ConnectFour.StateForConnectFour.FindActions | games/connectfour.h:92-100 | the legal actions become the reference list of open columns |
| ConnectFour.StateForConnectFour.Count | games/connectfour.h:111-125 | returns the length of the run of the player's pieces after the cell in the direction |
| ConnectFour.StateForConnectFour.IsWin | games/connectfour.h:126-129 | returns whether the piece completes four in a line |
| ConnectFour.StateForConnectFour.Drop | games/connectfour.h:103-110 | the piece lands on top of the column, the height grows by one, the cell index enters the hash, and the columns stay stacked |
| ConnectFour.StateForConnectFour.Settle | games/connectfour.h:130-141 | a win for the mover, else a tie when no column is open, else the other player's turn; the legal actions are recomputed unless the move won |
| ConnectFour.StateForConnectFour.ApplyAction | games/connectfour.h:102-143 | the mover's piece lands on top of the column, the hash takes the cell in, and the game becomes a win, a tie or the other player's turn |
| Minesweeper.IdxInBoard | src/games/minesweeper_common.h:62-75 | an in-board (row, col) is numbered within 0 .. width * height - 1 |
| Minesweeper.RowColToIdx | src/games/minesweeper_common.h:62-64 | defines `rowColToIdx`: row * stride + col; IdxInBoard, RowColRoundTrip and IdxInjective prove it numbers the board one to one |
| Minesweeper.IdxToRowCol | src/games/minesweeper_common.h:66-69 | defines `idxToRowCol` with the index converted to `size_t` and the results cut back to `int`; IdxRoundTrip proves it inverts RowColToIdx on the board |
| Minesweeper.IsInBoard | src/games/minesweeper_common.h:71-75 | defines `isInBoard`: 0 <= row < height and 0 <= col < width |
| Minesweeper.ArrGet | src/games/minesweeper_common.h:77-85 | the board value at the in-board cell's index |
| Minesweeper.RowColRoundTrip | src/games/minesweeper_common.h:62-70 | converting an in-board (row, col) to its index and back gives (row, col), on boards of fewer than 2^31 cells |
| Minesweeper.IdxRoundTrip | src/games/minesweeper_common.h:62-75 | every index of the board converts to an in-board (row, col) that converts back to the same index |
| Minesweeper.IdxInjective | src/games/minesweeper_common.h:62-75 | two in-board cells with the same index are the same cell |
| Minesweeper.Neighbors | src/games/minesweeper_common.h:155-171 | the matching neighbours among the first n offsets number at most n |
| Minesweeper.NeighborsIff | src/games/minesweeper_common.h:163-168 | a position is listed exactly when it is one of the first n offset cells, lies in the board and satisfies the predicate |
| Minesweeper.KingSteps | src/games/minesweeper_common.h:162-164 | the eight offsets are exactly the king moves: at most one row and one column, not both zero |
| Minesweeper.NeighborsAreAdjacent | src/games/minesweeper_common.h:155-171 | the listed cells are exactly the in-board cells adjacent to (row, col), other than itself, whose value satisfies the predicate |
| Minesweeper.GetNeighbors | src/games/minesweeper_common.h:155-171 | the loop returns exactly the matching neighbours in visiting order, at most eight |
| Minesweeper.CountNeighbors | src/games/minesweeper_common.h:188-203 | the loop's count is the number of matching neighbours, at most eight |
| Minesweeper.Mask.constructor | src/games/minesweeper_common.h:211-213 | a new mask has the given extents and an empty position list |
| Minesweeper.Mask.Zero | src/games/minesweeper_common.h:215-219 | every flag is cleared and the list emptied, so list and flags agree |
| Minesweeper.Mask.Set | src/games/minesweeper_common.h:221-226 | the flag of (row, col) is set and no other changes; the position is appended only when its flag was unset, so no position is listed twice and list and flags keep agreeing |
| Minesweeper.Mask.Get | src/games/minesweeper_common.h:228-230 | the flag of the in-board cell (row, col) |
| Minesweeper.MarkNeighbors | src/games/minesweeper_common.h:174-185 | afterwards a flag is set exactly when it was set before or its cell is a matching neighbour; list and flags keep agreeing |
| Minesweeper.CellCharDigit | src/games/minesweeper_common.h:128-130 | a mine count 0..9 is shown as its decimal digit |
| Minesweeper.BoardTextAt | src/games/minesweeper_common.h:136-143 | the text has width + 1 characters per row: the characters of the row's cells in order, then an end of line |
| Minesweeper.BoardToString | src/games/minesweeper_common.h:112-144 | the two loops produce the board text: '?' for unknown, 'X' for a mine, the digit of a count, row by row, each row ended by a newline |
| Minesweeper.CellChars | src/games/minesweeper_common.h:116-133 | the first loop gives the character of every cell, in cell order |

## Left out

- Tensors: a row of a replay buffer is an opaque value, and a tensor is the sequence of its rows. Stacking, slicing and compression of tensors are not modelled.
- Random numbers: the Mersenne-Twister generator of the tube buffer is the sequence of outputs it will produce next. The Zobrist keys of Hex, Havannah and the chessboard are not drawn: the chessboard takes its keys as constructor parameters, and the Hex and Havannah hashes are left out.
- Locks, threads and condition variables of the buffers, the RPC layer and the node storage are left out; every operation runs alone.
- Rpc.Handle, Rpc.WriteReply: the exception rethrown after the 0xfe reply is the output flag `rethrown`; what the server's message loop does with the exception is not modelled.
- The zstd compression of RPC messages is left out: the deserializer works on the decompressed bytes.
- Sockets, file reads and writes, `glob`, `sleep` and printing are left out. The endless polling loop of `gen_checkpoints` is modelled one listing per round (`Checkpoint.EpochSelector.Round`), and both glob calls of a round see the same listing.
- `Path.absolute()` and `Path.resolve()` depend on the working directory, which is a parameter `cwd`; both are modelled as prefixing a relative path with it.
- `int()` of an epoch accepts decimal digits only; signs, spaces and underscores that Python also accepts are not modelled.
- Float fields of the parameter classes are kept as their printed text; no float arithmetic is modelled.
- ConnectFour: the features (`featurize`, `fillFullFeatures`), the move list `_moves` and `printCurrentBoard` are left out.
- Minesweeper: the extents are parameters rather than template arguments; the game itself (mine placement, the CSP solver) is not part of this model, and `boardMaskToString` and `minesToString` are left out.
- MctsNode: the statistics, policy and value, the game state and the lock of a node are floating point or foreign data and are left out. `freeTree` walks a value snapshot of the subtree. `printTree` is left out.
- WeakSchur: the printing operator is left out. The free-action table is indexed by number first and subset second, and its flat storage is not modelled.
- WeakSchur.WeakSchur.ApplyAction: `nbNumbersOfSubset` is bumped after the update loop instead of before it. The loop does not read it, so the final state is the same.
- Hash words are natural numbers below 2^64 combined by `Bits.Xor`; the FNV product of ConnectFour is taken modulo 2^64 explicitly.
- NoGoBitBoard: the two `long long` words are `bv64`. Negating the word that holds only bit 63 is modelled as two's complement, which the C++ standard leaves undefined. Positions are `bv7`, the numbers 0 to 127 the two words can address.
- NoGoPosition.Point.ToSymmetryOf: the source's `assert(false)` for `SYMMETRY_SIZE` becomes a precondition that the symmetry is a real one.
- Hex.Board.Play: requires room in the path table for a new path, which the registered board sizes always have. A 1x1 board would overflow it.
- Hex.Board.constructor: the new board is already reset, whereas the source's constructor only sets up the hash and the game calls `reset()` before play.
- Havannah.Board.constructor: the new board is already reset, as for Hex, and the size is at least 2 (the registered sizes are 5, 8 and 10).
- Havannah.Board.Play: the flood fill `detectHole` is a parameter `hole` that says whether a group encloses a region; the cycle rule is stated with it.
- Havannah.Board.FindWinnerPath: the index of the winning path is a ghost output; only the cells are returned.
- Network.ReadPort: the port is an unbounded natural number; the overflow of the source's `int` on a long digit string is not modelled.
- TubeReplayBuffer.ReplayBuffer.Sample: requires `sampleSize <= size`, which the source checks with an `assert` after it has moved the counter.
- TubeReplayBuffer.ReplayBuffer.Add: the `assert`s of `add` and `getNextIndices` are preconditions: after the first batch, every batch has the same keys as the stored columns and each column the stored row shape; a batch has at most capacity rows; and every column of a batch has the same number of rows. The model says nothing about a batch that breaks them, on which the source aborts, or runs on unchecked when built without assertions.
- TubeReplayBuffer.SampleKFromN: the samples come out in the order they were first drawn; the source collects them in an `unordered_set`, whose iteration order the model does not capture. Only the set of samples and its size are promised.
- Minesweeper.MarkNeighbors: the flags and the agreement of list and flags are stated, but not the order in which the positions are appended to the sparse list.

## Findings

| source | as written | input that shows it | evidently intended | confidence | as-written member | corrected member |
|---|---|---|---|---|---|---|
| pypolygames/params.py:735-736 | `defaults.checkpoint_dir = None  # revert` goes through `__setattr__`, which keeps the current value for None, so the placeholder path (made absolute) stays | the help of `--checkpoint_dir` for EvalParams in any working directory `cwd` | the help shows the declared default None | not executed | Params.EvalHelpDefaultNotReverted, Params.PlaceholderKept | Params.HelpDefaultsAreDeclared |
| src/distributed/rpc.h:110-119 | the clamp compares the remaining size with `sizeof(T) * len` computed in `size_t`, which wraps modulo 2^64 | a declared length of 2^63 two-byte elements over an empty remainder: nothing is clamped and the view claims 2^63 elements | the count is clamped to the whole elements that remain | not executed | Rpc.ReadStringViewAsWritten, Rpc.ReadStringViewOverruns | Rpc.ReadStringViewFrom, Rpc.Deserializer.ReadStringView |
| src/distributed/network.cc:186-189 | the host is re-cut at ':' when the bracketed host has the same text as the part after ']' | "[a:1]a:1" gives host "a" and port 1 | a bracketed host is kept whole: host "a:1" | not executed | Network.DecodeEndpoint, Network.BracketedHostLost | Network.IntendedEndpointOf, Network.BracketedRoundTrip, Network.ReadingsAgree |
| src/games/commons/chessboard.h:318-319 | the rank read by `std::stoul` is stored in an `int`, so a rank of 2^32 + k reads as k | "A4294967304" on an 8x8 board with inverted ranks reads as square (0, 0) | a rank that does not fit is rejected | not executed | Chessboard.ParsedPos, Chessboard.TruncatedRankAccepted | Chessboard.IntendedParsedPos, Chessboard.IntendedPosStrRoundTrip, Chessboard.IntendedParsedPosOnBoard |
| games/weakschur/WeakSchur.cpp:53 | the scan for the most constrained number stops below `_maxNumber`, so the number maxNumber is never a candidate | free-subset counts [0, 3, 0, 0, 2] with score 1: the choice is 2 although 5 has fewer free subsets | maxNumber is among the candidates and 5 is chosen | not executed | WeakSchur.WeakSchur.GetMostConstrainedNumber, WeakSchur.MaxNumberOverlooked | WeakSchur.WeakSchur.GetMostConstrainedNumberIntended |
| games/weakschur/WeakSchur.cpp:77-97 | a run is compared only when a number outside the subset ends it, so the run that reaches maxNumber is never compared | maxNumber 1 with number 1 in subset 1: no run is reported for subset 1 | the trailing run is compared too, giving the run {1} | not executed | WeakSchur.WeakSchur.GetLongestSeq, WeakSchur.TrailingRunMissed | WeakSchur.WeakSchur.GetLongestSeqIntended, WeakSchur.IntendedCoversEveryRun |
