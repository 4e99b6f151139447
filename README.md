# Iggy server and SDK rules, modelled in Dafny

This project models a set of small rule sets from the Iggy message-streaming
server, its SDK and its CLI. All of them are sequential and deterministic:

- **System start-up and cache eviction** (`Systems`, system.dfy).
  - `System::new` picks the persister from `enforce_fsync`.
  - `System::create` builds an encryptor only when encryption is enabled.
  - `init` checks or creates the base directory, then the streams directory,
    then loads stored state. The first failure is returned.
  - `persist_messages` stops at the first stream that fails.
  - `ensure_authenticated` and `map_toggle_str` are pure matches.
  - `clean_cache` sends one eviction request to every partition of every topic
    of every stream. Each request is `ceil(cache_size * size_to_clean / usage_bytes) * 5` bytes.
- **Permissioner user-management rules** (`Permissions`, permissioner_users.dfy).
  Reading users needs the caller's `read_users` flag. Changing users needs
  `manage_users`. Everything else is `Unauthorized`.
- **Command payloads** `GetSnapshot` (get_snapshot.dfy) and `GetStream`
  (get_stream.dfy). This covers `|`-split text parsing, byte encoding and
  decoding, and `Display`, with their round trips.
- **CLI poll format** (`CliCommand`, cli_command.dfy). The text after the last
  `|` selects `Binary`, `String` or `None`. `None` is also the default format
  (`CliCommand.DEFAULT_FORMAT`).
- **Logging** (`Logging`, logging.dfy).
  - The filtering level: `RUST_LOG` first, then the configuration, with INFO as the fallback.
  - The discarding writer.
  - The early-log buffer and how it is dumped.

Three support modules:

- `Errors` holds the shared error values and `Result`/`Option`.
- `Text` is Rust's `str::split` on one character.
- `Utf8` is UTF-8 encoding, strict decoding (`str::from_utf8`) and lossy
  decoding (`String::from_utf8_lossy`). Both round trips are proved.

Inputs that the model does not compute:

- The `RUST_LOG` value and the configuration.
- Whether a directory exists or can be created (`FileSystem`).
- Whether the database opens.
- Whether the encryption key is valid.
- The outcomes of loading state and of persisting each stream.
- The command parser's result.
- The stream identifier's conversions.
- `LevelFilter::from_str` and `strip_ansi_escapes::strip`, as function parameters.

The stream identifier type is a type parameter. Its byte and text
conversions come in an `IdentifierCodec`. The round-trip lemmas for
`GetStream` take the identifier's own round trip as a hypothesis.

## Model

| member | source | states |
|---|---|---|
| `Systems.ChoosePersister` | server/src/streaming/systems/system.rs:59-62 | the sync persister is chosen iff `enforce_fsync` is true, the plain file persister iff it is false |
| `Systems.CreateEncryptor` | server/src/streaming/systems/system.rs:82-87 | no encryptor when encryption is disabled; an AES-256-GCM encryptor from the configured key when enabled; a panic when enabled with an invalid key |
| `Systems.EncryptorPresentIffEnabled` | server/src/streaming/systems/system.rs:82-87 | once `create` gets past the encryptor, it is present iff encryption is enabled |
| `Systems.MapToggleStr` | server/src/streaming/systems/system.rs:145-150 | "enabled" exactly for true, "disabled" exactly for false |
| `Systems.EnsureAuthenticated` | server/src/streaming/systems/system.rs:138-143 | Ok iff the session is authenticated, otherwise `Unauthenticated` |
| `Systems.System.constructor` | server/src/streaming/systems/system.rs:81-97 | a created system keeps the given config, persister and encryptor, has no streams and an empty permission map |
| `Systems.System.Create` | server/src/streaming/systems/system.rs:71-98 | panics exactly when the encryptor cannot be built; otherwise a fresh system with the chosen encryptor and no streams |
| `Systems.System.New` | server/src/streaming/systems/system.rs:44-69 | panics with the database path when no database is given and opening fails; otherwise it panics exactly when encryption is enabled and the key is invalid; a started system keeps the config, takes its persister from `enforce_fsync` and the encryptor `create` builds (present iff encryption is enabled), and has no streams and an empty permission map |
| `Systems.FileSystem.Exists` | server/src/streaming/systems/system.rs:101 | `Path::exists`: true iff the directory is present |
| `Systems.FileSystem.CreateDir` | server/src/streaming/systems/system.rs:102 | `create_dir` succeeds iff the path is absent and not refused, and then adds exactly that path |
| `Systems.System.Init` | server/src/streaming/systems/system.rs:100-122 | the result and the directories afterwards are those of the step sequence: base directory, streams directory, then version, users and streams loading, stopping at the first failure |
| `Systems.InitOutcome` | server/src/streaming/systems/system.rs:100-122 | what `init` returns; `InitChecksBaseFirst` and `InitSucceedsIff` state when it fails with which error |
| `Systems.InitDirectories` | server/src/streaming/systems/system.rs:101-110 | the directories `init` leaves; `InitChecksBaseFirst` and `InitSucceedsIff` state which exist afterwards |
| `Systems.InitChecksBaseFirst` | server/src/streaming/systems/system.rs:101-110 | `CannotCreateStreamsDirectory` only after the base step passed; a failed base step gives `CannotCreateBaseDirectory` whatever follows, and creates nothing |
| `Systems.InitSucceedsIff` | server/src/streaming/systems/system.rs:100-122 | `init` is Ok iff both directories exist afterwards and all three loads succeed; existing directories are never removed |
| `Systems.System.PersistMessages` | server/src/streaming/systems/system.rs:129-136 | Ok iff every stream persists; on error, the streams before the failing one all succeeded, the failing one was the last asked, and its error is returned |
| `Systems.System.Shutdown` | server/src/streaming/systems/system.rs:124-127 | Ok iff every stream persists; an error returned is that of the first failing stream, all streams before it having persisted |
| `Systems.CeilDiv` | server/src/streaming/systems/system.rs:160-163 | the least `q` with `q * b >= a` (exact ceiling of `a / b`) |
| `Systems.EvictionTarget` | server/src/streaming/systems/system.rs:160-164 | a multiple of the over-eviction factor, zero exactly when the cache is empty or nothing is to be cleaned; `EvictionTargetIsRoundedShare` states its value |
| `Systems.EvictionTargetIsRoundedShare` | server/src/streaming/systems/system.rs:160-164 | the target is 5 times the least whole number at or above `cache_size * size_to_clean / usage_bytes` |
| `Systems.TargetCoversShare` | server/src/streaming/systems/system.rs:160-164 | target times usage is at least 5 times size-to-clean times cache size |
| `Systems.EmptyCacheEvictsNothing` | server/src/streaming/systems/system.rs:160-164 | an empty cache is asked to evict 0 bytes |
| `Systems.EvictionTargetMonotonic` | server/src/streaming/systems/system.rs:160-164 | a larger cache never gets a smaller target than a smaller cache |
| `Systems.FactorAppliedAfterRounding` | server/src/streaming/systems/system.rs:164 | the factor multiplies the rounded share, so the target is at least the rounded multiplied share, and it can be larger (1 of 3 bytes cleaning 1 gives 5, not 2) |
| `Systems.EvictionTargetFitsU64` | server/src/streaming/systems/system.rs:164 | with cache size at most usage and `5 * size_to_clean` below 2^64, the exact-arithmetic target is at most `5 * size_to_clean` and so fits in `u64` (the `f64` rounding of the source is not covered; see Left out) |
| `Systems.ProportionalExample` | server/src/streaming/systems/system.rs:160-164 | caches of 300 and 100 out of 400, cleaning 200, are asked for 750 and 250 bytes |
| `Systems.AllPartitions` | server/src/streaming/systems/system.rs:153-155 | the visiting order of `clean_cache`, stream by stream and topic by topic; `AllPartitionsMembership` states which partitions it holds |
| `Systems.TopicPartitions` | server/src/streaming/systems/system.rs:154-155 | one stream's visiting order, topic by topic; `TopicPartitionsMembership` states which partitions it holds, `TopicPartitionsCount` how many |
| `Systems.TopicPartitionsCount` | server/src/streaming/systems/system.rs:154-155 | one stream's visiting order has one entry per partition of its topics |
| `Systems.AllPartitionsCount` | server/src/streaming/systems/system.rs:153-155 | the visiting order has exactly as many entries as there are partitions, counted stream by stream and topic by topic |
| `Systems.Locate` | server/src/streaming/systems/system.rs:155 | one located entry per partition of a topic, in order, each carrying the stream and topic id |
| `Systems.Requests` | server/src/streaming/systems/system.rs:155-164 | one request per visited partition, in visiting order, each for that partition's target |
| `Systems.System.CleanCache` | server/src/streaming/systems/system.rs:152-169 | the requests are exactly one per partition of every topic of every stream, in visiting order, each for the partition's target; their number equals the independently counted number of partitions (`PartitionCount`) |
| `Systems.CleanStream` | server/src/streaming/systems/system.rs:154-166 | the requests for one stream are one per partition of each of its topics, topic by topic |
| `Systems.CleanTopic` | server/src/streaming/systems/system.rs:155-165 | the requests for one topic are one per partition, in order, each naming the stream, topic and partition and asking for that partition's target |
| `Systems.OneRequestPerPartition` | server/src/streaming/systems/system.rs:153-164 | request `i` names partition `i`'s stream, topic and partition id and asks for its target |
| `Systems.AllPartitionsMembership` | server/src/streaming/systems/system.rs:153-155 | a partition is visited iff it sits in a topic of a stream, with those ids |
| `Systems.TopicPartitionsMembership` | server/src/streaming/systems/system.rs:154-155 | within one stream, a partition is visited iff it sits in one of the stream's topics |
| `Systems.RequestsCoverShares` | server/src/streaming/systems/system.rs:160-164 | summed over partitions, requested bytes times usage are at least 5 times size-to-clean times total cache size |
| `Systems.CleanCacheReclaimsEnough` | server/src/streaming/systems/system.rs:152-169 | when usage equals the sum of cache sizes, one pass requests at least `5 * size_to_clean` bytes in total |
| `Permissions.ReadUsers` | server/src/streaming/users/permissioner_rules/users.rs:43-51 | Ok iff the user has an entry with `read_users`; the only error is `Unauthorized` |
| `Permissions.ManageUsers` | server/src/streaming/users/permissioner_rules/users.rs:33-41 | Ok iff the user has an entry with `manage_users`; the only error is `Unauthorized` |
| `Permissions.GetUser` | server/src/streaming/users/permissioner_rules/users.rs:5-7 | Ok iff the user has an entry with `read_users`; otherwise `Unauthorized` |
| `Permissions.GetUsers` | server/src/streaming/users/permissioner_rules/users.rs:9-11 | Ok iff the user has an entry with `read_users`; otherwise `Unauthorized` |
| `Permissions.CreateUser` | server/src/streaming/users/permissioner_rules/users.rs:13-15 | Ok iff the user has an entry with `manage_users`; otherwise `Unauthorized` |
| `Permissions.DeleteUser` | server/src/streaming/users/permissioner_rules/users.rs:17-19 | Ok iff the user has an entry with `manage_users`; otherwise `Unauthorized` |
| `Permissions.UpdateUser` | server/src/streaming/users/permissioner_rules/users.rs:21-23 | Ok iff the user has an entry with `manage_users`; otherwise `Unauthorized` |
| `Permissions.UpdatePermissions` | server/src/streaming/users/permissioner_rules/users.rs:25-27 | Ok iff the user has an entry with `manage_users`; otherwise `Unauthorized` |
| `Permissions.ChangePassword` | server/src/streaming/users/permissioner_rules/users.rs:29-31 | Ok iff the user has an entry with `manage_users`; otherwise `Unauthorized` |
| `Permissions.Check` | server/src/streaming/users/permissioner_rules/users.rs:4-31 | the seven user operations as one dispatch table; `CheckMatchesTable` states which flag each needs |
| `Permissions.CheckMatchesTable` | server/src/streaming/users/permissioner_rules/users.rs:4-52 | every user operation succeeds iff the caller's entry has the flag that operation needs (read for the two getters, manage for the rest); any failure is `Unauthorized` |
| `Permissions.UnknownUserIsUnauthorized` | server/src/streaming/users/permissioner_rules/users.rs:33-51 | a user id without an entry is `Unauthorized` for every operation |
| `Permissions.DecisionIsLocal` | server/src/streaming/users/permissioner_rules/users.rs:33-51 | the decision depends only on the caller's own entry |
| `Permissions.FlagsAreIndependent` | server/src/streaming/users/permissioner_rules/users.rs:33-51 | changing `manage_users` leaves the read check unchanged, and changing `read_users` leaves the manage check unchanged |
| `Permissions.NeitherFlagImpliesTheOther` | server/src/streaming/users/permissioner_rules/users.rs:33-51 | a reader-only user may read but not manage, and a manager-only user may manage but not read |
| `GetSnapshotCommand.Validate` | iggy/src/system/get_snapshot.rs:16-21 | validation always succeeds |
| `GetSnapshotCommand.FromStr` | iggy/src/system/get_snapshot.rs:23-37 | fails with `InvalidCommand` iff the input contains `\|`; otherwise the location is the input verbatim, the empty string included |
| `GetSnapshotCommand.AsBytes` | iggy/src/system/get_snapshot.rs:40-42 | the UTF-8 bytes of the location; `BytesRoundTrip` and `FromBytesThenAsBytes` show it is the inverse of `from_bytes` |
| `GetSnapshotCommand.Display` | iggy/src/system/get_snapshot.rs:53-57 | the location as it is; `DisplayRoundTrip` shows `from_str` reads it back when it has no `\|` |
| `GetSnapshotCommand.FromBytes` | iggy/src/system/get_snapshot.rs:44-50 | fails iff the bytes are not well-formed UTF-8; otherwise the location is the decoded text |
| `GetSnapshotCommand.BytesRoundTrip` | iggy/src/system/get_snapshot.rs:39-51 | `from_bytes(as_bytes(c)) == c` for every command |
| `GetSnapshotCommand.FromBytesThenAsBytes` | iggy/src/system/get_snapshot.rs:39-51 | accepted bytes are exactly the encoding of the command they decode to |
| `GetSnapshotCommand.FromBytesFailsIffNotUtf8` | iggy/src/system/get_snapshot.rs:44-45 | `from_bytes` fails iff the bytes encode no string at all |
| `GetSnapshotCommand.DisplayRoundTrip` | iggy/src/system/get_snapshot.rs:23-57 | parsing the displayed command succeeds iff the location has no `\|`, and then gives the command back |
| `GetStreamCommand.Validate` | iggy/src/streams/get_stream.rs:18-22 | validation never rejects |
| `GetStreamCommand.FromStr` | iggy/src/streams/get_stream.rs:24-37 | input containing `\|` gives `InvalidCommand`; otherwise the identifier parser's result is passed on, wrapped as a command |
| `GetStreamCommand.AsBytes` | iggy/src/streams/get_stream.rs:39-42 | the identifier's bytes; `BytesRoundTrip` shows `from_bytes` reads it back |
| `GetStreamCommand.Display` | iggy/src/streams/get_stream.rs:56-60 | the identifier's text; `DisplayRoundTrip` shows `from_str` reads it back |
| `GetStreamCommand.FromBytes` | iggy/src/streams/get_stream.rs:44-53 | fewer than 3 bytes give `InvalidCommand`; otherwise the identifier decoder's result is passed on, wrapped as a command |
| `GetStreamCommand.BytesRoundTrip` | iggy/src/streams/get_stream.rs:39-53 | for an identifier whose bytes decode back to it and are at least 3 long, `from_bytes(as_bytes(c)) == c` |
| `GetStreamCommand.ShortEncodingIsRejected` | iggy/src/streams/get_stream.rs:44-47 | an identifier encoding shorter than 3 bytes is rejected with `InvalidCommand` |
| `GetStreamCommand.DisplayRoundTrip` | iggy/src/streams/get_stream.rs:24-60 | for an identifier whose text has no `\|` and parses back, `from_str(display(c)) == c` |
| `CliCommand.FormatOfToken` | cli/src/command.rs:46-50 | `Binary` exactly for "b" and "binary", `String` exactly for "s" and "string" |
| `CliCommand.PollFormat` | cli/src/command.rs:45-52 | the format of the token after the last `\|`; `PollFormatOfFinalSegment` and `PollFormatCases` state which token that is and what it selects |
| `CliCommand.Handle` | cli/src/command.rs:12-55 | an unparsable line gives `InvalidCommand` and nothing is dispatched; a poll command is passed on unchanged with the format of its line; other commands are passed on unchanged |
| `CliCommand.PollFormatOfFinalSegment` | cli/src/command.rs:45-52 | the format is that of the text after the last `\|`, or of the whole line when it has none |
| `CliCommand.PollFormatWithoutSeparator` | cli/src/command.rs:45 | a line without `\|` is used whole as the format token |
| `CliCommand.PollFormatCases` | cli/src/command.rs:45-52 | after a final `\|`, "b"/"binary" give `Binary`, "s"/"string" give `String`, and any other token gives `None` |
| `Logging.GetFilteringLevel` | server/src/logging/mod.rs:214-241 | a set `RUST_LOG` that parses after upper-casing wins; a set but invalid one gives INFO; without it a parsable config level is used, an invalid one gives INFO, and no config gives INFO |
| `Logging.RustLogIgnoresConfig` | server/src/logging/mod.rs:216-223 | with `RUST_LOG` set, the configuration is not consulted |
| `Logging.UpperChar` | server/src/logging/mod.rs:218 | ASCII lower-case letters map to upper case, every other character is kept |
| `Logging.ToUpper` | server/src/logging/mod.rs:218 | same length, each character upper-cased |
| `Logging.ToUpperIdempotent` | server/src/logging/mod.rs:218 | upper-casing twice is upper-casing once |
| `Logging.LevelChoiceIsCaseInsensitive` | server/src/logging/mod.rs:214-234 | values equal up to ASCII case select the same level, from `RUST_LOG` and from the config |
| `Logging.NullWriterWrite` | server/src/logging/mod.rs:18-21 | reports the whole buffer as written |
| `Logging.EarlyLogBuffer.constructor` | server/src/logging/mod.rs:100 | the early-log buffer starts empty |
| `Logging.VecStringWriter.constructor` | server/src/logging/mod.rs:48-50 | a writer is a handle on the given shared buffer |
| `Logging.VecStringWriter.Write` | server/src/logging/mod.rs:31-35 | appends exactly one entry, the lossy decoding of the bytes, at the end of the shared buffer and returns the byte count |
| `Logging.Logging.constructor` | server/src/logging/mod.rs:93-102 | a new `Logging` owns a fresh, empty early-log buffer |
| `Logging.Logging.MakeWriter` | server/src/logging/mod.rs:48-50 | `early_init`'s `VecStringMakeWriter` around the buffer followed by its `make_writer`: the writer it makes writes into this logging's buffer |
| `Logging.Logging.Dump` | server/src/logging/mod.rs:59-74 | writes each buffered entry's bytes, transformed, in buffer order, after what the sink already held |
| `Logging.Logging.DumpToFile` | server/src/logging/mod.rs:59-65 | writes every entry, ANSI-stripped, in buffer order |
| `Logging.Logging.DumpToStdout` | server/src/logging/mod.rs:67-74 | writes the UTF-8 bytes of all entries concatenated in buffer order |
| `Logging.ByteSink.WriteAll` | server/src/logging/mod.rs:63 | `write_all` appends exactly the given bytes |
| `Logging.Dumped` | server/src/logging/mod.rs:61-64 | the bytes a dump writes, entry after entry; `DumpedAppend` and `DumpedIdentity` state their order and the stdout form |
| `Logging.DumpedAppend` | server/src/logging/mod.rs:61-64 | dumping a concatenation of buffers is dumping each in turn |
| `Logging.DumpedIdentity` | server/src/logging/mod.rs:71-73 | without a transform the dump is the encoding of the concatenated entries |
| `Text.Split` | iggy/src/system/get_snapshot.rs:26 | always at least one part, and one more part than separators |
| `Text.SplitSingleIff` | iggy/src/system/get_snapshot.rs:26-29 | a string splits into one part iff it has no separator, and that part is the whole string |
| `Text.JoinSplit` | iggy/src/system/get_snapshot.rs:26 | joining the parts with the separator restores the string |
| `Text.SplitPartsHaveNoSeparator` | iggy/src/system/get_snapshot.rs:26 | no part contains the separator |
| `Text.LastPartIsFinalSegment` | cli/src/command.rs:45 | the last part is the suffix after the last separator, or the whole string |
| `Utf8.Encode` | iggy/src/system/get_snapshot.rs:41 | `into_bytes`: one to four bytes per character |
| `Utf8.Decode` | iggy/src/system/get_snapshot.rs:45 | `str::from_utf8`: a decoded string has at most as many characters as there are bytes, and at least a quarter as many |
| `Utf8.DecodeLossy` | server/src/logging/mod.rs:33 | `from_utf8_lossy`: at most one character per byte, and nonempty bytes give a nonempty string |
| `Utf8.DecodeEncode` | iggy/src/system/get_snapshot.rs:40-45 | `from_utf8(s.into_bytes()) == s` for every string |
| `Utf8.EncodeDecode` | iggy/src/system/get_snapshot.rs:45 | whatever `from_utf8` accepts is the encoding of the string it returns |
| `Utf8.DecodeFailsIffNotEncoding` | iggy/src/system/get_snapshot.rs:45 | `from_utf8` fails iff the bytes are not the encoding of any string |
| `Utf8.LossyAgreesOnValid` | server/src/logging/mod.rs:33 | on well-formed input the lossy decoding replaces nothing |
| `Utf8.LossyDecodeEncode` | server/src/logging/mod.rs:33 | the lossy decoding of an encoded string is that string |

## Left out

- The storage engine behind `System` is not part of this model: partitions, segments, the partition cache's `evict_by_size`, the persister implementations and `Stream::persist_messages`. A partition is its id and its cache's `current_size()`. Each stream's persist outcome is an input.
- `clean_cache` spawns one fire-and-forget task per partition and takes the partition's lock inside it. That is concurrency. The model issues the requests one after another in visiting order. The order in which the spawned tasks actually run is not captured.
- Mutex poisoning is not modelled. The `lock().unwrap()` in `VecStringWriter::write` and in both early-log dumps can panic on a poisoned mutex; the model's buffer is always available.
- `Systems.System.CleanCache`: the source computes the share in `f64` and casts it to `u64`. The model uses exact integer ceiling division, which can differ from the float result by rounding. `usage_bytes = 0` gives NaN or infinity there; the model requires `usage_bytes > 0`.
- `Systems.System.CleanCache`: the `u64` product `size_to_remove * 5` is not modelled with wrap-around or a panic. `EvictionTargetFitsU64` bounds only the exact target.
- `Systems.EvictionTargetFitsU64`: states the bound in exact arithmetic only. In the source, `size_to_clean as f64` rounds values above 2^53. For example, cache size = usage = 1000 and `size_to_clean` = 3689348814741910323 (so `5 * size_to_clean` fits in `u64`) rounds to 3689348814741910528, and times 5 exceeds `u64::MAX`. The source's overflow for such values is not captured.
- `Systems.System.CleanCache`: the memory tracker singleton's `usage_bytes()` is read inside each task. The model reads it once, as a parameter. A partition without a cache (the `unwrap` at line 159) is not modelled.
- `HashMap` iteration order over streams, topics and partitions is unspecified. The model fixes it as the order of its sequences.
- `create_snapshot_file` is left out: it spawns processes, writes a zip file and reads the clock.
- `init`'s `load_version`, `load_users` and `load_streams` are not part of this model; their outcomes are inputs, and what they load is not represented.
- The directory checks use a set of directories and a set of refused paths in place of the real file system. The log lines and timing in `init` are left out.
- Other log calls are left out, since they have no effect on results: the `info!` in `create` that prints `map_toggle_str`'s text, the `trace!` in `persist_messages`, and the `info!` in the CLI's `handle`.
- `sled` database opening is an input: whether a database was given and whether opening succeeds.
- Key decoding in `Aes256GcmEncryptor::from_base64_key` is an input predicate.
- `Session::is_authenticated` is not part of this model; a session carries the answer.
- `GlobalPermissions` has more flags than `manage_users` and `read_users`. Only these two are read by the modelled rules. The checks are pure functions, so they cannot change the permission map.
- `Identifier`'s byte and text formats are not part of this model. Its `as_bytes`, `from_bytes`, `to_string` and `parse` are the fields of `IdentifierCodec`. Their round trips are hypotheses of the lemmas, not facts.
- `Command::from_str` and the CLI's per-command handlers are not part of this model. `Handle` takes the parse result and returns what it would dispatch.
- `Logging.UpperChar`: only ASCII letters are upper-cased. Every other character is kept, while Rust's `to_uppercase` also maps non-ASCII letters.
- `Logging.ToUpper`: `str::to_uppercase` is modelled for ASCII letters only. Rust also maps other characters, e.g. dotless `ı` to `I`, so some non-ASCII spellings of a level name are accepted by the source but not by the model. It can also change the length (`ß` becomes `SS`); the model never does.
- `LevelFilter::from_str` is a parameter.
- `std::env::var` fails for a non-Unicode value as well as for an unset one; both are `None` in the model.
- The warning `println!`s in `get_filtering_level` are left out.
- The tracing subscriber, the reload handles, `early_init` and `late_init`, and the non-blocking and rolling appenders are left out. These are library wiring.
- NullWriter's and VecStringWriter's `flush` do nothing and are left out.
- `strip_ansi_escapes::strip` is a parameter of `DumpToFile`. The `unwrap` on `write_all` never fails in the model.
