# knife core in Dafny

A model of the algorithmic core of the `knife` Java utility library. It covers five parts:

- **Snowflake id generators.** Three classes are modelled: the 54-bit `SnowFlakeIdGenerator54`, the 64-bit `idgenerator.SnowFlakeIdGenerator64`, and the improved `impl.snowflakeidgenerator.SnowFlakeIdGenerator64`, together with their abstract bases.
  - All three are one class, `SnowflakeGenerator`, parameterised by a `Layout`: machine bits, sequence bits, tolerated backward drift, and the backup rollback policy. The policy is either extrapolating or clamping.
  - The three factory methods instantiate it as 4/12/1000 ms extrapolating, 10/13/1000 ms clamping, and 9/14/800 ms extrapolating.
  - The clock is an injected sequence of millisecond readings plus a cursor.
  - `nextId` and `nextBackId` update the four mutable timestamp and sequence fields step by step, and are proved against the pure step functions `NextStep` and `NextBackStep` (built on `Advance`). `untilNextMillis` is a loop that moves only the clock cursor, proved to stop at the first reading above its argument (`FirstAfter`).
  - The proved properties are:
    - per-role strict monotonicity of the ids;
    - disjoint machine fields for the primary and backup roles;
    - the bit-layout round trip;
    - the construction ranges;
    - that every id a generator returns differs from every id it returned before.
- **Sensitive-word repository and filter.** The repository's tree of nested `HashMap`s, with its `"end"` flags and word counter, is a value trie (`Trie`) held in the repository object.
  - `removeSensitiveWordFromMapTree` is a walk loop, proved against the function `Remove`, that decides where to cut and then replaces the tree by that cut.
  - In `addSensitiveWordToMapTree` the loop is a read-only walk along the existing part of the path; it decides only whether the word counter grows. The tree itself is replaced by the value `Insert(root, w)`; Java's node-creating loop has no loop counterpart (see "## Left out").
  - The filter's `getSensitiveWordLength` and `checkSensitiveWords` loops are proved against `MatchLength` and `FoundWords`. Lemmas then say what those functions mean in terms of the words in the tree and the stop chars.
  - Also modelled: the stop-char repository, the replacement-string doubling, and the greedy and replace-char settings.
- **Filter builder.** This part covers the 32-bit capacity arithmetic, and the rule that builds only the missing repositories from their default texts.
- **Mail configuration parser.** It checks the required keys, copies the SMTP port, fills in defaults where keys are absent, and maps the receive type. `Properties` is a mutable string map.
- **`AssertUtils`.** This covers the blank-string, index-range, array, collection and null checks, and the exceptions they throw.

Java `null` is modelled as `Option.None` and a thrown exception as `Result.Failure` (or `Some(exception)`). `String.trim` and `Character.isWhitespace` are given their Java definitions in `JavaText`.

Files:

- `wrappers.dfy`, `arith.dfy` and `java_text.dfy` hold shared definitions.
- `snowflake_spec.dfy` holds the layout and the step functions.
- `snowflake_generator.dfy` holds the generator class.
- `sensitive_word_trie.dfy` holds the trie, insert and remove.
- `sensitive_word_repository.dfy` holds the repository class.
- `stop_char_repository.dfy` holds the stop-char repository.
- `sensitive_word_scan.dfy` holds the matcher functions and lemmas.
- `sensitive_word_filter.dfy` holds the filter class.
- `filter_builder.dfy` holds the builder.
- `mail_configuration.dfy` holds the mail parser.
- `assert_utils.dfy` holds `AssertUtils`.

## Model

| member | source | states |
|---|---|---|
| SnowflakeSpec.ConstructionError | src/main/java/com/github/guang19/knife/idgenerator/impl/snowflakeidgenerator/SnowFlakeIdGenerator64.java:114-122 | construction succeeds iff 0 <= machineId < 2^(bits-1) <= backupMachineId < 2^bits; the machine-id error is reported iff the machine id is out of its range (it is checked first) |
| SnowflakeSpec.ConstructionRanges54 | src/main/java/com/github/guang19/knife/idgenerator/SnowFlakeIdGenerator54.java:121-129 | the 54-bit generator accepts exactly machine ids 0..7 and backup ids 8..15 |
| SnowflakeSpec.ConstructionRanges64 | src/main/java/com/github/guang19/knife/idgenerator/SnowFlakeIdGenerator64.java:117-125 | the 64-bit generator accepts exactly machine ids 0..511 and backup ids 512..1023 |
| SnowflakeSpec.ConstructionRanges64Impl | src/main/java/com/github/guang19/knife/idgenerator/impl/snowflakeidgenerator/SnowFlakeIdGenerator64.java:143-151 | the improved 64-bit generator accepts exactly machine ids 0..255 and backup ids 256..511 |
| SnowflakeSpec.PackRoundTrip | src/main/java/com/github/guang19/knife/idgenerator/impl/snowflakeidgenerator/SnowFlakeIdGenerator64.java:79-82 | masking and shifting a packed id gives back its sequence, its machine field and its timestamp offset |
| SnowflakeSpec.PackMonotone | src/main/java/com/github/guang19/knife/idgenerator/impl/snowflakeidgenerator/SnowFlakeIdGenerator64.java:193 | for a fixed machine, ids are strictly increasing in (timestamp, sequence) ordered lexicographically |
| SnowflakeSpec.PackMachinesDisjoint | src/main/java/com/github/guang19/knife/idgenerator/SnowFlakeIdGenerator64.java:85-88 | ids packed with different in-range machine fields never coincide |
| SnowflakeSpec.PackFits | src/main/java/com/github/guang19/knife/idgenerator/impl/snowflakeidgenerator/SnowFlakeIdGenerator64.java:29-35 | a timestamp offset of t bits gives an id in [0, 2^(t + machineBits + sequenceBits)) |
| SnowflakeSpec.Ids54Fit53Bits | src/main/java/com/github/guang19/knife/idgenerator/SnowFlakeIdGenerator54.java:35-42 | with a timestamp offset in [0, 2^37) every 54-bit-generator id lies in [0, 2^53 - 1] |
| SnowflakeSpec.Ids64Fit63Bits | src/main/java/com/github/guang19/knife/idgenerator/impl/snowflakeidgenerator/SnowFlakeIdGenerator64.java:29-35 | with a 40-bit timestamp offset every id of either 64-bit generator lies in [0, 2^63 - 1] |
| SnowflakeSpec.FirstAfter | src/main/java/com/github/guang19/knife/idgenerator/impl/snowflakeidgenerator/AbstractSnowflakeIdGenerator.java:103-111 | the index of the first reading from the cursor on that exceeds t; every earlier reading is at most t |
| SnowflakeSpec.AdvanceMovesForward | src/main/java/com/github/guang19/knife/idgenerator/impl/snowflakeidgenerator/SnowFlakeIdGenerator64.java:177-191 | a non-rollback step moves the role strictly forward lexicographically, keeps its sequence in range and never lands before the reading |
| SnowflakeSpec.AdvanceSameMillisecond | src/main/java/com/github/guang19/knife/idgenerator/impl/snowflakeidgenerator/SnowFlakeIdGenerator64.java:177-185 | on an equal reading the sequence becomes seq + 1; on wrap it becomes 0, and the timestamp becomes the first later reading that exceeds the old one |
| SnowflakeSpec.PrimaryPath | src/main/java/com/github/guang19/knife/idgenerator/impl/snowflakeidgenerator/SnowFlakeIdGenerator64.java:166-194 | a reading not behind lastTimestamp yields an id carrying the new primary state and machineId; that id is larger than the previous primary id, and the backup is untouched |
| SnowflakeSpec.RollbackPath | src/main/java/com/github/guang19/knife/idgenerator/impl/snowflakeidgenerator/SnowFlakeIdGenerator64.java:170-175 | a reading behind lastTimestamp leaves the primary state unchanged; the call fails iff the backup drift exceeds the tolerance, and then nothing changes; otherwise the backup id increases and carries backupMachineId |
| SnowflakeSpec.BackPath | src/main/java/com/github/guang19/knife/idgenerator/impl/snowflakeidgenerator/SnowFlakeIdGenerator64.java:201-233 | nextBackId fails exactly beyond the tolerated drift; otherwise the backup state moves strictly forward and the id grows and carries backupMachineId |
| SnowflakeSpec.ExtrapolatedRollback | src/main/java/com/github/guang19/knife/idgenerator/SnowFlakeIdGenerator54.java:180-192 | extrapolating generators, drift within tolerance: backupLast := backupLast + drift and the backup sequence resets to 0 |
| SnowflakeSpec.ClampedRollback | src/main/java/com/github/guang19/knife/idgenerator/SnowFlakeIdGenerator64.java:183-203 | clamping generators, drift within tolerance: the backup sequence is incremented rather than reset; on wrap the backup waits for a later millisecond |
| SnowflakeSpec.RolesNeverCollide | src/main/java/com/github/guang19/knife/idgenerator/impl/snowflakeidgenerator/SnowFlakeIdGenerator64.java:232 | primary ids carry a machine field <= MAX_MACHINE_ID < MIN_BACKUP_MACHINE_ID <= the backup ids' field, so the two roles never produce the same id |
| SnowflakeIdGenerator.SnowflakeGenerator.constructor | src/main/java/com/github/guang19/knife/idgenerator/impl/snowflakeidgenerator/AbstractSnowflakeIdGenerator.java:33-51 | START_EPOCH and the machine ids are assigned once; both roles start at lastTimestamp -1 with sequence 0; the object invariant holds |
| SnowflakeIdGenerator.SnowflakeGenerator.CurrentMillisTimestamp | src/main/java/com/github/guang19/knife/idgenerator/impl/snowflakeidgenerator/AbstractSnowflakeIdGenerator.java:91-94 | returns the next clock reading and consumes it |
| SnowflakeIdGenerator.SnowflakeGenerator.UntilNextMillis | src/main/java/com/github/guang19/knife/idgenerator/impl/snowflakeidgenerator/AbstractSnowflakeIdGenerator.java:103-111 | returns a reading strictly greater than t, namely the first one (`FirstAfter`); earlier readings are discarded and no generator field changes |
| SnowflakeIdGenerator.SnowflakeGenerator.GenerateId | src/main/java/com/github/guang19/knife/idgenerator/impl/snowflakeidgenerator/AbstractSnowflakeIdGenerator.java:60-63 | returns exactly what nextId returns, with the same new state |
| SnowflakeIdGenerator.SnowflakeGenerator.NextId | src/main/java/com/github/guang19/knife/idgenerator/impl/snowflakeidgenerator/SnowFlakeIdGenerator64.java:166-194 | the result and the new fields are those of `NextStep`; a returned id differs from every id this generator returned before; the invariant is kept (every issued id has its role's machine field and is at most that role's current id) |
| SnowflakeIdGenerator.SnowflakeGenerator.NextBackId | src/main/java/com/github/guang19/knife/idgenerator/impl/snowflakeidgenerator/SnowFlakeIdGenerator64.java:201-233 | the result and the new fields are those of `NextBackStep`; a returned id is new, and the invariant is kept |
| SnowflakeIdGenerator.SnowflakeGenerator.AdvancePrimary | src/main/java/com/github/guang19/knife/idgenerator/impl/snowflakeidgenerator/SnowFlakeIdGenerator64.java:177-191 | the equal-timestamp and later-timestamp branches of nextId update the primary fields and the clock as `Advance` says |
| SnowflakeIdGenerator.SnowflakeGenerator.AdvanceBackup | src/main/java/com/github/guang19/knife/idgenerator/impl/snowflakeidgenerator/SnowFlakeIdGenerator64.java:218-231 | the equal-timestamp and later-timestamp branches of nextBackId update the backup fields and the clock as `Advance` says |
| SnowflakeIdGenerator.Create | src/main/java/com/github/guang19/knife/idgenerator/impl/snowflakeidgenerator/SnowFlakeIdGenerator64.java:138-158 | construction fails iff a machine id is out of range, with the constructor's error; otherwise it returns a fresh valid generator in its initial state |
| SnowflakeIdGenerator.NewSnowFlakeIdGenerator54 | src/main/java/com/github/guang19/knife/idgenerator/SnowFlakeIdGenerator54.java:117-133 | succeeds iff 0 <= machineId <= 7 and 8 <= backupMachineId <= 15, with layout 4/12/1000 ms extrapolating |
| SnowflakeIdGenerator.NewSnowFlakeIdGenerator64 | src/main/java/com/github/guang19/knife/idgenerator/SnowFlakeIdGenerator64.java:114-129 | succeeds iff 0 <= machineId <= 511 and 512 <= backupMachineId <= 1023, with layout 10/13/1000 ms clamping |
| SnowflakeIdGenerator.NewSnowFlakeIdGenerator64Impl | src/main/java/com/github/guang19/knife/idgenerator/impl/snowflakeidgenerator/SnowFlakeIdGenerator64.java:138-158 | succeeds iff 0 <= machineId <= 255 and 256 <= backupMachineId <= 511, with layout 9/14/800 ms extrapolating |
| SensitiveWordTrie.InsertContains | src/main/java/com/github/guang19/knife/sensitivefilter/sensitivewordfilter/DefaultSensitiveWordRepository.java:86-124 | after adding w, the sensitive words are exactly the old ones plus w |
| SensitiveWordTrie.InsertPaths | src/main/java/com/github/guang19/knife/sensitivefilter/sensitivewordfilter/DefaultSensitiveWordRepository.java:98-113 | adding w creates nodes only along w's path: a path exists afterwards iff it existed before or is a prefix of w |
| SensitiveWordTrie.InsertExisting | src/main/java/com/github/guang19/knife/sensitivefilter/sensitivewordfilter/DefaultSensitiveWordRepository.java:115-122 | re-adding a word that is already present leaves the tree unchanged |
| SensitiveWordTrie.SetEndAtContains | src/main/java/com/github/guang19/knife/sensitivefilter/sensitivewordfilter/DefaultSensitiveWordRepository.java:172-175 | clearing the end flag of w's node removes exactly the word w |
| SensitiveWordTrie.RemoveAtContains | src/main/java/com/github/guang19/knife/sensitivefilter/sensitivewordfilter/DefaultSensitiveWordRepository.java:188-191 | removing the entry c below path p removes exactly the words that start with p + [c] |
| SensitiveWordTrie.Parent | src/main/java/com/github/guang19/knife/sensitivefilter/sensitivewordfilter/DefaultSensitiveWordRepository.java:142-158 | prev is the node above w's last node; it is none (the root) exactly when w has one character |
| SensitiveWordTrie.EndFlag | src/main/java/com/github/guang19/knife/sensitivefilter/sensitivewordfilter/DefaultSensitiveWordRepository.java:142-158 | isEndFlag is the length of the deepest proper prefix of w (among the first k walked) whose node is a word end, and 0 exactly when there is none |
| SensitiveWordTrie.WalkStep | src/main/java/com/github/guang19/knife/sensitivefilter/sensitivewordfilter/DefaultSensitiveWordRepository.java:142-158 | one step of the removal walk: the next node exists iff its character is a child key; a missing key means w's path is missing; otherwise isEndFlag moves to a word end before the last character |
| SensitiveWordTrie.Remove | src/main/java/com/github/guang19/knife/sensitivefilter/sensitivewordfilter/DefaultSensitiveWordRepository.java:130-269 | a missing path changes nothing and does not decrement; an existing path always decrements the counter; a final node that is not a word end leaves the tree unchanged |
| SensitiveWordTrie.RemoveDeletesWord | src/main/java/com/github/guang19/knife/sensitivefilter/sensitivewordfilter/DefaultSensitiveWordRepository.java:130-269 | removing a sensitive word deletes it and never adds a word |
| SensitiveWordTrie.RemoveExact | src/main/java/com/github/guang19/knife/sensitivefilter/sensitivewordfilter/DefaultSensitiveWordRepository.java:172-191 | when the last node has children, or its parent is the root or a word end, exactly w is removed and every other word survives |
| SensitiveWordTrie.RemoveLeafExact | src/main/java/com/github/guang19/knife/sensitivefilter/sensitivewordfilter/DefaultSensitiveWordRepository.java:188-191 | a leaf whose parent is the root or a word end is cut alone: exactly w is removed |
| SensitiveWordTrie.RemoveCanLoseSiblingWord | src/main/java/com/github/guang19/knife/sensitivefilter/sensitivewordfilter/DefaultSensitiveWordRepository.java:212-243 | with the words "abc" and "abd", removing "abc" cuts below the first node and also loses "abd" |
| WordRepository.AddSemantics | src/main/java/com/github/guang19/knife/sensitivefilter/sensitivewordfilter/DefaultSensitiveWordRepository.java:65-124 | a blank word changes nothing; otherwise the words become the old ones plus trim(w), the size grows by 1 iff trim(w) was new, and re-adding changes nothing |
| WordRepository.RemoveSemantics | src/main/java/com/github/guang19/knife/sensitivefilter/sensitivewordfilter/DefaultSensitiveWordRepository.java:130-269 | a blank word or a missing path changes nothing; a present word is deleted, no word is added, and the size drops by 1 |
| WordRepository.DefaultSensitiveWordRepository.constructor | src/main/java/com/github/guang19/knife/sensitivefilter/sensitivewordfilter/DefaultSensitiveWordRepository.java:29-32 | empty tree, size 0 |
| WordRepository.DefaultSensitiveWordRepository.AddSensitiveWord | src/main/java/com/github/guang19/knife/sensitivefilter/sensitivewordfilter/DefaultSensitiveWordRepository.java:48-51 | the tree and size become `AfterAdd` of the old ones |
| WordRepository.DefaultSensitiveWordRepository.RemoveSensitiveWord | src/main/java/com/github/guang19/knife/sensitivefilter/sensitivewordfilter/DefaultSensitiveWordRepository.java:58-61 | the tree and size become `AfterRemove` of the old ones |
| WordRepository.DefaultSensitiveWordRepository.BuildSensitiveWordMapTree | src/main/java/com/github/guang19/knife/sensitivefilter/sensitivewordfilter/DefaultSensitiveWordRepository.java:65-81 | null, empty and whitespace-only words are ignored; others are trimmed and added or removed |
| WordRepository.DefaultSensitiveWordRepository.AddSensitiveWordToMapTree | src/main/java/com/github/guang19/knife/sensitivefilter/sensitivewordfilter/DefaultSensitiveWordRepository.java:86-125 | the tree becomes `Insert(old, w)` and the size grows by 1 iff w was not already a word |
| WordRepository.DefaultSensitiveWordRepository.RemoveSensitiveWordFromMapTree | src/main/java/com/github/guang19/knife/sensitivefilter/sensitivewordfilter/DefaultSensitiveWordRepository.java:130-269 | the tree and the size change as `Remove(old, w)` says |
| StopChars.DefaultStopCharRepository.constructor | src/main/java/com/github/guang19/knife/sensitivefilter/DefaultStopCharRepository.java:29-32 | no explicitly added stop chars |
| StopChars.DefaultStopCharRepository.AddStopChar | src/main/java/com/github/guang19/knife/sensitivefilter/DefaultStopCharRepository.java:48-51 | afterwards c is a stop char; the size grows by 1 iff c was not already added |
| StopChars.DefaultStopCharRepository.RemoveStopChar | src/main/java/com/github/guang19/knife/sensitivefilter/DefaultStopCharRepository.java:58-61 | afterwards c is a stop char iff it is whitespace; the size drops by 1 iff c had been added |
| StopChars.DefaultStopCharRepository.IsStopChar | src/main/java/com/github/guang19/knife/sensitivefilter/DefaultStopCharRepository.java:69-72 | whitespace is always a stop char; any other character is one iff it was added |
| SensitiveWordScan.ScanFrom | src/main/java/com/github/guang19/knife/sensitivefilter/sensitivewordfilter/impl/DefaultSensitiveWordFilter.java:139-169 | the scan result is 0 or lies between the characters consumed so far and that count plus what is left of the content |
| SensitiveWordScan.MatchLength | src/main/java/com/github/guang19/knife/sensitivefilter/sensitivewordfilter/impl/DefaultSensitiveWordFilter.java:133-170 | the returned length is at most length - begin |
| SensitiveWordScan.StopStep | src/main/java/com/github/guang19/knife/sensitivefilter/sensitivewordfilter/impl/DefaultSensitiveWordFilter.java:142-145 | a stop char is invisible to the tree: skipping it changes no match, and it is no word on its own |
| SensitiveWordScan.MissStep | src/main/java/com/github/guang19/knife/sensitivefilter/sensitivewordfilter/impl/DefaultSensitiveWordFilter.java:147-153 | a character missing from the current level starts no word |
| SensitiveWordScan.CharStep | src/main/java/com/github/guang19/knife/sensitivefilter/sensitivewordfilter/impl/DefaultSensitiveWordFilter.java:154-167 | a character found in the current level moves the match to its node's children |
| SensitiveWordScan.ScanFindsMatch | src/main/java/com/github/guang19/knife/sensitivefilter/sensitivewordfilter/impl/DefaultSensitiveWordFilter.java:135-169 | the scan is positive iff a word end was already passed or some stretch ahead, with stop chars skipped, is a sensitive word |
| SensitiveWordScan.ScanMatchWithin | src/main/java/com/github/guang19/knife/sensitivefilter/sensitivewordfilter/impl/DefaultSensitiveWordFilter.java:135-169 | a positive scan covers a stretch that is a sensitive word |
| SensitiveWordScan.MatchLengthMeaning | src/main/java/com/github/guang19/knife/sensitivefilter/sensitivewordfilter/impl/DefaultSensitiveWordFilter.java:133-170 | getSensitiveWordLength is positive iff some stretch from begin, with stop chars skipped, is a sensitive word, and it reaches at least the end of one |
| SensitiveWordScan.ScanNonGreedy | src/main/java/com/github/guang19/knife/sensitivefilter/sensitivewordfilter/impl/DefaultSensitiveWordFilter.java:155-166 | in non-greedy mode the consumed stretch is a word and no shorter stretch is |
| SensitiveWordScan.NonGreedyMatchIsShortestWord | src/main/java/com/github/guang19/knife/sensitivefilter/sensitivewordfilter/impl/DefaultSensitiveWordFilter.java:155-166 | non-greedy getSensitiveWordLength returns the length of the shortest word stretch from begin, stop chars included |
| SensitiveWordScan.GreedyCanOvershoot | src/main/java/com/github/guang19/knife/sensitivefilter/sensitivewordfilter/impl/DefaultSensitiveWordFilter.java:139-169 | greedy mode can return more than the last complete match: the words "a" and "abc" with the content "abx" give 2, and "ab" is no word |
| SensitiveWordScan.Spans | src/main/java/com/github/guang19/knife/sensitivefilter/sensitivewordfilter/impl/DefaultSensitiveWordFilter.java:116-126 | every reported occurrence lies inside the content |
| SensitiveWordScan.SpanIsMatch | src/main/java/com/github/guang19/knife/sensitivefilter/sensitivewordfilter/impl/DefaultSensitiveWordFilter.java:119-122 | each occurrence's length is the match length found at its start |
| SensitiveWordScan.SpansOrdered | src/main/java/com/github/guang19/knife/sensitivefilter/sensitivewordfilter/impl/DefaultSensitiveWordFilter.java:123-124 | occurrences are non-empty, in order, and never overlap, because scanning resumes after each match |
| SensitiveWordScan.SpansMissNothing | src/main/java/com/github/guang19/knife/sensitivefilter/sensitivewordfilter/impl/DefaultSensitiveWordFilter.java:116-126 | every position no occurrence covers was tried and matched nothing |
| SensitiveWordScan.SpanWordsMembers | src/main/java/com/github/guang19/knife/sensitivefilter/sensitivewordfilter/impl/DefaultSensitiveWordFilter.java:122 | every collected string is the substring of one occurrence |
| SensitiveWordScan.CheckStep | src/main/java/com/github/guang19/knife/sensitivefilter/sensitivewordfilter/impl/DefaultSensitiveWordFilter.java:116-126 | one loop step keeps `collected + words from i on == all found words`, resuming at i + len after a match and at i + 1 otherwise |
| SensitiveWordScan.FoundWordOccurs | src/main/java/com/github/guang19/knife/sensitivefilter/sensitivewordfilter/impl/DefaultSensitiveWordFilter.java:119-122 | each reported word is content.substring(p, p + len), with len > 0 the match length at p and p + len <= content length |
| SensitiveWordScan.FoundWordsAreMatches | src/main/java/com/github/guang19/knife/sensitivefilter/sensitivewordfilter/impl/DefaultSensitiveWordFilter.java:119-122 | some non-empty prefix of each reported word, with stop chars skipped, is a sensitive word |
| WordFilter.DoubleUntil | src/main/java/com/github/guang19/knife/sensitivefilter/sensitivewordfilter/AbstractSensitiveWordFilter.java:105-113 | the padded string has length >= n, is the replacement itself when that is long enough, and is shorter than 2n otherwise |
| WordFilter.DoubleUntilDoubles | src/main/java/com/github/guang19/knife/sensitivefilter/sensitivewordfilter/AbstractSensitiveWordFilter.java:107-111 | the result is the replacement doubled k times, for the least k that reaches n |
| WordFilter.DefaultSensitiveWordFilter.constructor | src/main/java/com/github/guang19/knife/sensitivefilter/sensitivewordfilter/impl/DefaultSensitiveWordFilter.java:26-29 | fresh empty repositories, greedy, replacement "*" |
| WordFilter.DefaultSensitiveWordFilter.WithRepositories | src/main/java/com/github/guang19/knife/sensitivefilter/sensitivewordfilter/impl/DefaultSensitiveWordFilter.java:37-40 | the given repositories, greedy, replacement "*" |
| WordFilter.DefaultSensitiveWordFilter.WithGreedy | src/main/java/com/github/guang19/knife/sensitivefilter/sensitivewordfilter/impl/DefaultSensitiveWordFilter.java:49-52 | the given repositories and greedy flag, replacement "*" |
| WordFilter.DefaultSensitiveWordFilter.WithReplaceChar | src/main/java/com/github/guang19/knife/sensitivefilter/sensitivewordfilter/impl/DefaultSensitiveWordFilter.java:62-65 | the given repositories, greedy flag and replacement |
| WordFilter.DefaultSensitiveWordFilter.GetSensitiveWords | src/main/java/com/github/guang19/knife/sensitivefilter/sensitivewordfilter/impl/DefaultSensitiveWordFilter.java:96-104 | null, empty or whitespace-only content gives the empty set; other content gives `FoundWords` |
| WordFilter.DefaultSensitiveWordFilter.CheckSensitiveWords | src/main/java/com/github/guang19/knife/sensitivefilter/sensitivewordfilter/impl/DefaultSensitiveWordFilter.java:109-128 | the collected set is `FoundWords`, the substrings of the occurrences `Spans` lists |
| WordFilter.DefaultSensitiveWordFilter.GetSensitiveWordLength | src/main/java/com/github/guang19/knife/sensitivefilter/sensitivewordfilter/impl/DefaultSensitiveWordFilter.java:133-170 | the loop returns `MatchLength` |
| WordFilter.DefaultSensitiveWordFilter.GetSensitiveWordReplaceChar | src/main/java/com/github/guang19/knife/sensitivefilter/sensitivewordfilter/AbstractSensitiveWordFilter.java:105-113 | the doubling loop returns `DoubleUntil(replaceChar, length)` |
| WordFilter.DefaultSensitiveWordFilter.AddSensitiveWord | src/main/java/com/github/guang19/knife/sensitivefilter/sensitivewordfilter/AbstractSensitiveWordFilter.java:121-124 | forwards to the word repository: its state becomes `AfterAdd` of the old state |
| WordFilter.DefaultSensitiveWordFilter.RemoveSensitiveWord | src/main/java/com/github/guang19/knife/sensitivefilter/sensitivewordfilter/AbstractSensitiveWordFilter.java:133-136 | forwards to the word repository: its state becomes `AfterRemove` of the old state |
| WordFilter.DefaultSensitiveWordFilter.AddStopChar | src/main/java/com/github/guang19/knife/sensitivefilter/sensitivewordfilter/AbstractSensitiveWordFilter.java:166-169 | forwards to the stop-char repository: c is added |
| WordFilter.DefaultSensitiveWordFilter.RemoveStopChar | src/main/java/com/github/guang19/knife/sensitivefilter/sensitivewordfilter/AbstractSensitiveWordFilter.java:178-181 | forwards to the stop-char repository: c is removed |
| WordFilter.DefaultSensitiveWordFilter.IsStopChar | src/main/java/com/github/guang19/knife/sensitivefilter/sensitivewordfilter/AbstractSensitiveWordFilter.java:213-216 | answers as the stop-char repository does: whitespace or an added character |
| WordFilter.DefaultSensitiveWordFilter.SetGreedy | src/main/java/com/github/guang19/knife/sensitivefilter/sensitivewordfilter/AbstractSensitiveWordFilter.java:222-225 | sets greedy and leaves the replacement unchanged |
| WordFilter.DefaultSensitiveWordFilter.SetReplaceChar | src/main/java/com/github/guang19/knife/sensitivefilter/sensitivewordfilter/AbstractSensitiveWordFilter.java:243-246 | sets the replacement and leaves greedy unchanged |
| FilterBuilder.SensitiveWordRepositorySpace | src/main/java/com/github/guang19/knife/sensitivefilter/sensitivewordfilter/AbstractTextSensitiveWordFilterBuilder.java:112-120 | `(bytes / (3 * avg)) >> 2` in 32-bit arithmetic stays an `int` |
| FilterBuilder.SensitiveWordSpaceIsQuarterOfWordCount | src/main/java/com/github/guang19/knife/sensitivefilter/sensitivewordfilter/AbstractTextSensitiveWordFilterBuilder.java:112-120 | for bytes >= 0 and 0 < 3 * avg < 2^31 the space is bytes / (12 * avg), between 0 and bytes |
| FilterBuilder.WrappedAverageGivesNegativeSpace | src/main/java/com/github/guang19/knife/sensitivefilter/sensitivewordfilter/AbstractTextSensitiveWordFilterBuilder.java:119 | when 3 * avg wraps (avg = 1431655765) the space for 100 bytes is -25 |
| FilterBuilder.StopCharRepositorySpace | src/main/java/com/github/guang19/knife/sensitivefilter/sensitivewordfilter/AbstractTextSensitiveWordFilterBuilder.java:127-132 | bytes / 3 truncated toward zero: in [0, bytes] for bytes >= 0, in [bytes, 0] otherwise |
| FilterBuilder.AbstractTextSensitiveWordFilterBuilder.constructor | src/main/java/com/github/guang19/knife/sensitivefilter/sensitivewordfilter/AbstractTextSensitiveWordFilterBuilder.java:29-41 | no repositories yet; average word length 5 |
| FilterBuilder.AbstractTextSensitiveWordFilterBuilder.WithAvgLength | src/main/java/com/github/guang19/knife/sensitivefilter/sensitivewordfilter/AbstractTextSensitiveWordFilterBuilder.java:48-51 | no repositories yet; the given average word length |
| FilterBuilder.AbstractTextSensitiveWordFilterBuilder.BuildSensitiveWordRepository | src/main/java/com/github/guang19/knife/sensitivefilter/sensitivewordfilter/AbstractTextSensitiveWordFilterBuilder.java:59 | sets a fresh word repository, built from the given text, and changes nothing else |
| FilterBuilder.AbstractTextSensitiveWordFilterBuilder.BuildStopCharRepository | src/main/java/com/github/guang19/knife/sensitivefilter/sensitivewordfilter/AbstractTextSensitiveWordFilterBuilder.java:67 | sets a fresh stop-char repository, built from the given text, and changes nothing else |
| FilterBuilder.AbstractTextSensitiveWordFilterBuilder.Build | src/main/java/com/github/guang19/knife/sensitivefilter/sensitivewordfilter/AbstractTextSensitiveWordFilterBuilder.java:75-86 | with both repositories set, reuses them and builds nothing; otherwise only the missing ones are built; the missing ones are fresh; the average word length is kept; the filter is over the builder's repositories |
| FilterBuilder.AbstractTextSensitiveWordFilterBuilder.BuildDefaultRepositorySensitiveWordFilter | src/main/java/com/github/guang19/knife/sensitivefilter/sensitivewordfilter/AbstractTextSensitiveWordFilterBuilder.java:90-101 | only missing repositories are built, from "sensitive_word.txt" and "stopchar.txt" in that order; present ones are kept and built ones are fresh; the average word length is kept |
| MailConfig.PutIfAbsentKeeps | src/main/java/com/github/guang19/knife/mail/DefaultMailConfigurationParser.java:80-83 | one set-if-absent step keeps every present key and its value, and adds only its own key |
| MailConfig.DefaultedKeeps | src/main/java/com/github/guang19/knife/mail/DefaultMailConfigurationParser.java:78-116 | defaulting keeps every present key with its value |
| MailConfig.DefaultedKeys | src/main/java/com/github/guang19/knife/mail/DefaultMailConfigurationParser.java:78-116 | after defaulting, all nine default keys are present |
| MailConfig.DefaultedAddsOnlyDefaults | src/main/java/com/github/guang19/knife/mail/DefaultMailConfigurationParser.java:78-116 | defaulting adds no key other than the nine default ones |
| MailConfig.DefaultedIdempotent | src/main/java/com/github/guang19/knife/mail/DefaultMailConfigurationParser.java:78-116 | applying the defaults a second time changes nothing |
| MailConfig.ReceiveTypeDefaultsToTo | src/main/java/com/github/guang19/knife/mail/DefaultMailConfigurationParser.java:80-83 | an absent receive type becomes "to" |
| MailConfig.ReceiveTypeOf | src/main/java/com/github/guang19/knife/mail/DefaultMailConfigurationParser.java:55-56 | "cc" maps to CC, "bcc" to BCC, and anything else to TO |
| MailConfig.CheckedRequiredProperties | src/main/java/com/github/guang19/knife/mail/DefaultMailConfigurationParser.java:61-75 | fails iff a required key is missing, with the username/password error taking priority; a failure changes nothing; success sets socketFactory.port to the SMTP port |
| MailConfig.SetDefaultMailProperties | src/main/java/com/github/guang19/knife/mail/DefaultMailConfigurationParser.java:78-116 | the properties become `Defaulted` of the old ones |
| MailConfig.SetIfAbsent | src/main/java/com/github/guang19/knife/mail/DefaultMailConfigurationParser.java:80-83 | writes the key only when it is absent |
| MailConfig.Parse | src/main/java/com/github/guang19/knife/mail/DefaultMailConfigurationParser.java:49-57 | fails iff a required key is missing, leaving the map unchanged and without defaults; otherwise the result carries the credentials, the port-copied and defaulted properties, and the receive type they select (TO when none was given) |
| AssertUtils.AssertIndexOutOfRange | src/main/java/com/github/guang19/knife/AssertUtils.java:167-174 | true iff min <= index <= max, despite its name |
| AssertUtils.ExceptionIfIndexOutOfRange | src/main/java/com/github/guang19/knife/AssertUtils.java:20-26 | throws IndexOutOfBoundsException iff index < min or index > max |
| AssertUtils.AssertStrBlank | src/main/java/com/github/guang19/knife/AssertUtils.java:48-51 | true iff the string is null or every character is one that trim removes |
| AssertUtils.AssertStrNotBlank | src/main/java/com/github/guang19/knife/AssertUtils.java:59-62 | exactly the negation of assertStrBlank; a non-blank string has a character trim keeps |
| AssertUtils.ExceptionIfStrBlank | src/main/java/com/github/guang19/knife/AssertUtils.java:35-41 | throws IllegalArgumentException with the message iff assertStrBlank holds |
| AssertUtils.AssertArrayEmpty | src/main/java/com/github/guang19/knife/AssertUtils.java:70-73 | a null array throws NullPointerException; otherwise true iff the array has no elements |
| AssertUtils.AssertArrayNotEmpty | src/main/java/com/github/guang19/knife/AssertUtils.java:81-84 | throws NullPointerException exactly where assertArrayEmpty does; otherwise exactly its negation |
| AssertUtils.AssertCollectionEmpty | src/main/java/com/github/guang19/knife/AssertUtils.java:107-110 | true iff the collection is null or has no elements |
| AssertUtils.AssertCollectionNotEmpty | src/main/java/com/github/guang19/knife/AssertUtils.java:118-121 | exactly the negation of assertCollectionEmpty |
| AssertUtils.ExceptionIfCollectionEmpty | src/main/java/com/github/guang19/knife/AssertUtils.java:93-99 | throws IllegalArgumentException with the message iff assertCollectionEmpty holds |
| AssertUtils.AssertObjNull | src/main/java/com/github/guang19/knife/AssertUtils.java:143-146 | true iff the reference is null |
| AssertUtils.AssertObjNotNull | src/main/java/com/github/guang19/knife/AssertUtils.java:154-157 | exactly the negation of assertObjNull |
| AssertUtils.ExceptionIfObjNull | src/main/java/com/github/guang19/knife/AssertUtils.java:129-135 | throws NullPointerException with the message iff the reference is null |

## Left out

- **Clock.** `System.currentTimeMillis` and the JNI clock (`SystemTime`, `TimeUtils`, `JNIUtils`) are foreign calls. The clock is an injected sequence of readings with a cursor.
- **Busy-wait precondition.** The busy-wait in `untilNextMillis` ends only if a later reading exceeds the last timestamp. `ExceedsLater` and `CanStep` state this as a precondition of `nextId`, `nextBackId` and `generateId`, for the role that the first reading selects: the primary when the reading is not behind it, the backup on a rollback. On the extrapolating rollback path, which never waits, the backup condition is still required.
- **`synchronized`.** The locking on `nextId` is not modelled; each call is one atomic step.
- **Epoch and logging.** The epoch is derived from `LocalDateTime` in zone "+8", after a 1 ns sleep. Here `START_EPOCH` is a constructor parameter. The `LOGGER` calls are not modelled.
- **Java `long` overflow.** Ids are unbounded integers. `Pack` equals the Java shift-and-or whenever the fields are in range and the value fits a `long`; `Ids54Fit53Bits` and `Ids64Fit63Bits` give the timestamp ranges for which it does. Wrap-around for timestamps outside those ranges is not modelled.
- **54-bit revision mismatch.** The 54-bit generator overrides a `nextId` that its `idgenerator.AbstractSnowflakeIdGenerator` base does not declare. Here every generator's `generateId` is its `nextId`.
- **Uniqueness across instances.** `SnowflakeIdGenerator.SnowflakeGenerator.NextId` proves ids distinct within one generator instance, not across instances that share machine ids.
- **`IdGenerator.generateStrId`.** It is a UUID library call.
- **`doFilter`.** It replaces words through `RegexUtils.replaceAll`, which treats the word as a Java regular expression, and that engine is not modelled. What `doFilter` uses from the core is modelled: `getSensitiveWords` and `getSensitiveWordReplaceChar`.
- **UTF-16 code units.** A Java `char` is a UTF-16 code unit, while a Dafny `char` here is a Unicode scalar value. For text outside the Basic Multilingual Plane, Java's `length()`, `toCharArray()`, `substring` offsets and trie keys count two units per character where the model counts one. So `MatchLength`, the `Spans` offsets and the length passed to `GetSensitiveWordReplaceChar` differ from Java on such text, and a lone surrogate cannot be a stop char or trie key in the model. For text inside the Basic Multilingual Plane the two agree.
- **`JavaText.IsWhitespace` version.** It follows `Character.isWhitespace` as of Java 9 and later. Java 8 also counts U+180E as whitespace; that difference is not modelled.
- **`addSensitiveWordToMapTree` node creation.** Java creates the missing nodes of the path in a loop over nested maps. Here the loop only walks the existing path to decide the counter, and the new tree is the value `Insert(root, w)`. The order in which nodes are created, and in-place updates of shared nodes, are not captured; the resulting tree is (`InsertContains`, `InsertPaths`).
- **`AssertUtils.AssertArrayEmpty` and `AssertArrayNotEmpty`.** A null array gives a `NullPointerException`, as in Java. The message of that JVM-generated exception is not modelled.
- **Trie aliasing.** The tree of nested `HashMap`s is a value (`Trie`), replaced as a whole in the repository. In-place mutation through shared node references is not captured. The second walk loop of the word-end branch (DefaultSensitiveWordRepository.java:257-260) is the path argument of `RemoveAt`.
- **`SensitiveWordTrie.Remove`.** Preservation of other words is proved only for the cases of `RemoveExact`. When the cut happens below the first node or below the nearest word end, sibling words can be lost (`RemoveCanLoseSiblingWord`). That is the behaviour of the code as written, and it is modelled as such.
- **`SensitiveWordScan.MatchLength`.** In greedy mode the length is not proved to end on a word end. It can overshoot (`GreedyCanOvershoot`), and only the existence of a word inside it is proved (`MatchLengthMeaning`).
- **`WordFilter.DefaultSensitiveWordFilter.GetSensitiveWordReplaceChar`.**
  - It requires a non-empty replacement when `length > 0`; in Java an empty one loops forever.
  - A `null` replacement, which throws `NullPointerException` in Java, is not modelled.
  - The Java limit on string length is not modelled.
- **`FilterBuilder.SensitiveWordRepositorySpace`.** It requires `avg != 0`. The `ArithmeticException` that Java throws for `avg == 0` is not modelled.
- **Capacity constructors.** The `initCapacity` constructors of the two repositories only size a `HashMap`, so they are not modelled.
- **Counter overflow.** The repository counter `size` is an unbounded integer, so Java `int` overflow of it is not modelled.
- **Repository types.** The filter and builder hold the default repository classes, not the `SensitiveWordRepository` and `StopCharRepository` interfaces.
- **Builder I/O.** `TextSensitiveWordFilterBuilder` reads the word and stop-char files. Here those reads are represented by the ghost list of texts the builder loaded; file parsing is not modelled.
- **Mail parser I/O.** The classpath loading in `DefaultMailConfigurationParser.parse`, and its `NullPointerException` when the file is missing, are not modelled; `MailConfig.Parse` starts from loaded properties. `ResourceUtils` is not modelled either.
- **`MailConfiguration`.** The mail package's `MailConfiguration` class is not part of this model; the record `MailConfig.MailConfiguration` stands in for the fields `parse` sets.
- **Out-of-scope utilities.** These are foreign libraries or carry no logic of their own:
  - mail sending;
  - reflection;
  - ASM visitors;
  - bean copying;
  - RSA;
  - the regex helpers;
  - `EmptyUtil`.
