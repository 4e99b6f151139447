/** The server's `System` (server/src/streaming/systems/system.rs): start-up
    choices, directory set-up, persisting on shutdown, the authentication
    gate and cache eviction across all partitions. Streams, topics and
    partitions are shown only as far as these operations read them; the
    cache itself, the persisters, the database and loading state from disk
    are not part of this model. */
module Systems {
  import opened Errors
  import Permissions

  /** Each eviction asks for this many times the partition's share, so that
      the next small write does not trigger another eviction at once. */
  const CACHE_OVER_EVICTION_FACTOR: nat := 5

  /** One more than the largest `u64`. */
  const U64_LIMIT: nat := 0x1_0000_0000_0000_0000

  // ---------------------------------------------------------------------
  // Start-up choices (`new`, `create`)
  // ---------------------------------------------------------------------

  datatype Persister = FilePersister | FileWithSyncPersister

  datatype Encryptor = Aes256GcmEncryptor(base64Key: string)

  datatype EncryptionConfig = EncryptionConfig(enabled: bool, key: string)

  /** The parts of `SystemConfig` that `System` reads. */
  datatype SystemConfig = SystemConfig(
    systemPath: string,
    streamsPath: string,
    databasePath: string,
    enforceFsync: bool,
    encryption: EncryptionConfig)

  /** Why start-up panics: `sled::open` failed, or the `unwrap` of a key
      that is not a valid base64 AES-256 key. */
  datatype PanicReason = CannotOpenDatabase(path: string) | InvalidEncryptionKey

  datatype Startup<+T> = Started(value: T) | Panicked(reason: PanicReason)

  /** The persister `new` builds from `partition.enforce_fsync`. */
  function ChoosePersister(enforceFsync: bool): (p: Persister)
    ensures p == FileWithSyncPersister <==> enforceFsync
    ensures p == FilePersister <==> !enforceFsync
  {
    if enforceFsync then FileWithSyncPersister else FilePersister
  }

  /** The encryptor `create` builds: none when encryption is disabled,
      otherwise one from the configured key, which must be valid
      (`isValidKey` stands for `Aes256GcmEncryptor::from_base64_key`
      succeeding). */
  function CreateEncryptor(encryption: EncryptionConfig, isValidKey: string -> bool): (r: Startup<Option<Encryptor>>)
    ensures !encryption.enabled ==> r == Started(None)
    ensures encryption.enabled && isValidKey(encryption.key) ==>
              r == Started(Some(Aes256GcmEncryptor(encryption.key)))
    ensures encryption.enabled && !isValidKey(encryption.key) ==> r == Panicked(InvalidEncryptionKey)
  {
    if !encryption.enabled then Started(None)
    else if isValidKey(encryption.key) then Started(Some(Aes256GcmEncryptor(encryption.key)))
    else Panicked(InvalidEncryptionKey)
  }

  /** When `create` gets past the encryptor, the system holds one exactly
      when encryption is enabled. */
  lemma EncryptorPresentIffEnabled(encryption: EncryptionConfig, isValidKey: string -> bool)
    requires CreateEncryptor(encryption, isValidKey).Started?
    ensures CreateEncryptor(encryption, isValidKey).value.Some? <==> encryption.enabled
  {
  }

  /** `map_toggle_str`, used in the start-up log line. */
  function MapToggleStr(enabled: bool): (s: string)
    ensures s == "enabled" <==> enabled
    ensures s == "disabled" <==> !enabled
  {
    if enabled then "enabled" else "disabled"
  }

  /** The session of a connected client; `is_authenticated` is not part of
      this model, so its answer is stored. */
  datatype Session = Session(authenticated: bool)

  /** `ensure_authenticated`. */
  function EnsureAuthenticated(session: Session): (r: Result<(), Error>)
    ensures r.Ok? <==> session.authenticated
    ensures r.Err? ==> r.error == Unauthenticated
  {
    if session.authenticated then Ok(()) else Err(Unauthenticated)
  }

  // ---------------------------------------------------------------------
  // Streams as `clean_cache` and `persist_messages` see them
  // ---------------------------------------------------------------------

  /** A partition, reduced to its id and its cache's `current_size()`. */
  datatype Partition = Partition(id: nat, cacheSize: nat)

  /** A topic and its partitions, in the order `get_partitions` lists them. */
  datatype Topic = Topic(id: nat, partitions: seq<Partition>)

  /** A stream and its topics, in the order `get_topics` lists them. */
  datatype Stream = Stream(id: nat, topics: seq<Topic>)

  /** A partition together with where it lives. */
  datatype Located = Located(streamId: nat, topicId: nat, partition: Partition)

  /** One `evict_by_size` call: which partition, and how many bytes. */
  datatype EvictionRequest = EvictionRequest(streamId: nat, topicId: nat, partitionId: nat, bytes: nat)

  // ---------------------------------------------------------------------
  // Eviction arithmetic
  // ---------------------------------------------------------------------

  /** The least `q` with `q * b >= a`. */
  function CeilDiv(a: nat, b: nat): (q: nat)
    requires b > 0
    ensures q * b >= a
    ensures q == 0 || (q - 1) * b < a
  {
    if a % b == 0 then a / b else a / b + 1
  }

  /** The bytes one partition is asked to evict: its share of
      `sizeToClean` in proportion to its part of `usageBytes`, rounded up,
      then multiplied by the over-eviction factor. */
  function EvictionTarget(cacheSize: nat, usageBytes: nat, sizeToClean: nat): (t: nat)
    requires usageBytes > 0
    ensures t % CACHE_OVER_EVICTION_FACTOR == 0
    ensures t == 0 <==> cacheSize == 0 || sizeToClean == 0
  {
    CeilDiv(cacheSize * sizeToClean, usageBytes) * CACHE_OVER_EVICTION_FACTOR
  }

  /** The target is the factor times the least whole number of bytes that
      is at least the partition's exact share `cacheSize * sizeToClean / usageBytes`. */
  lemma EvictionTargetIsRoundedShare(cacheSize: nat, usageBytes: nat, sizeToClean: nat)
    requires usageBytes > 0
    ensures var t := EvictionTarget(cacheSize, usageBytes, sizeToClean);
            var q := t / CACHE_OVER_EVICTION_FACTOR;
            t == q * CACHE_OVER_EVICTION_FACTOR &&
            q * usageBytes >= cacheSize * sizeToClean &&
            (q == 0 || (q - 1) * usageBytes < cacheSize * sizeToClean)
  {
  }

  /** One partition's target covers the factor times its exact share. */
  lemma TargetCoversShare(cacheSize: nat, usageBytes: nat, sizeToClean: nat)
    requires usageBytes > 0
    ensures EvictionTarget(cacheSize, usageBytes, sizeToClean) * usageBytes >=
              (CACHE_OVER_EVICTION_FACTOR * sizeToClean) * cacheSize
  {
  }

  lemma Distribute(a: nat, b: nat, c: nat)
    ensures (a + b) * c == a * c + b * c
    ensures c * (a + b) == c * a + c * b
  {
  }

  /** Cancelling a positive factor on both sides of `>=`. */
  lemma CancelPositive(a: nat, b: nat, c: nat)
    requires c > 0 && a * c >= b * c
    ensures a >= b
  {
  }

  lemma MulMonotonic(x: nat, y: nat, z: nat)
    requires x <= y
    ensures x * z <= y * z
  {
  }

  lemma CeilDivMonotonic(a1: nat, a2: nat, b: nat)
    requires b > 0 && a1 <= a2
    ensures CeilDiv(a1, b) <= CeilDiv(a2, b)
  {
    var q1, q2 := CeilDiv(a1, b), CeilDiv(a2, b);
    if q1 > q2 {
      MulMonotonic(q2, q1 - 1, b);
      assert false;
    }
  }

  /** An empty cache is asked to evict nothing. */
  lemma EmptyCacheEvictsNothing(usageBytes: nat, sizeToClean: nat)
    requires usageBytes > 0
    ensures EvictionTarget(0, usageBytes, sizeToClean) == 0
  {
  }

  /** A larger cache is never asked for less than a smaller one. */
  lemma EvictionTargetMonotonic(c1: nat, c2: nat, usageBytes: nat, sizeToClean: nat)
    requires usageBytes > 0 && c1 <= c2
    ensures EvictionTarget(c1, usageBytes, sizeToClean) <= EvictionTarget(c2, usageBytes, sizeToClean)
  {
    MulMonotonic(c1, c2, sizeToClean);
    CeilDivMonotonic(c1 * sizeToClean, c2 * sizeToClean, usageBytes);
  }

  /** The factor is applied after rounding, so the request is never below
      rounding the multiplied share, and can be above it: a 1-byte cache
      out of 3 cleaning 1 byte is asked for 5 bytes, not 2. */
  lemma FactorAppliedAfterRounding(cacheSize: nat, usageBytes: nat, sizeToClean: nat)
    requires usageBytes > 0
    ensures EvictionTarget(cacheSize, usageBytes, sizeToClean) >=
              CeilDiv(CACHE_OVER_EVICTION_FACTOR * cacheSize * sizeToClean, usageBytes)
    ensures EvictionTarget(1, 3, 1) == 5 && CeilDiv(CACHE_OVER_EVICTION_FACTOR * 1 * 1, 3) == 2
  {
    var q := CeilDiv(cacheSize * sizeToClean, usageBytes);
    var t := q * CACHE_OVER_EVICTION_FACTOR;
    assert t * usageBytes == 5 * (q * usageBytes);
    assert t * usageBytes >= CACHE_OVER_EVICTION_FACTOR * cacheSize * sizeToClean;
    var r := CeilDiv(CACHE_OVER_EVICTION_FACTOR * cacheSize * sizeToClean, usageBytes);
    if r > t {
      MulMonotonic(t, r - 1, usageBytes);
      assert false;
    }
  }

  /** When the partition's cache is no larger than the tracked total and
      `5 * sizeToClean` fits in `u64`, the exact target is at most
      `5 * sizeToClean` and so fits in `u64`. This is a fact about exact
      arithmetic only: rounding `size_to_clean` to `f64` can push the
      source's product past `u64::MAX` for values above 2^53. */
  lemma EvictionTargetFitsU64(cacheSize: nat, usageBytes: nat, sizeToClean: nat)
    requires 0 < usageBytes && cacheSize <= usageBytes
    requires CACHE_OVER_EVICTION_FACTOR * sizeToClean < U64_LIMIT
    ensures EvictionTarget(cacheSize, usageBytes, sizeToClean) <= CACHE_OVER_EVICTION_FACTOR * sizeToClean
    ensures EvictionTarget(cacheSize, usageBytes, sizeToClean) < U64_LIMIT
  {
    MulMonotonic(cacheSize, usageBytes, sizeToClean);
    assert usageBytes * sizeToClean == sizeToClean * usageBytes;
    var q := CeilDiv(cacheSize * sizeToClean, usageBytes);
    if q > sizeToClean {
      MulMonotonic(sizeToClean, q - 1, usageBytes);
      assert false;
    }
  }

  /** A worked example: caches of 300 and 100 bytes out of 400,
      cleaning 200, are asked for their 150 and 50 bytes times five. */
  lemma ProportionalExample()
    ensures EvictionTarget(300, 400, 200) == 150 * CACHE_OVER_EVICTION_FACTOR
    ensures EvictionTarget(100, 400, 200) == 50 * CACHE_OVER_EVICTION_FACTOR
  {
  }

  // ---------------------------------------------------------------------
  // Which partitions `clean_cache` visits, and what it asks of each
  // ---------------------------------------------------------------------

  /** The partitions of one topic, each with its location. */
  function Locate(streamId: nat, topicId: nat, partitions: seq<Partition>): (r: seq<Located>)
    ensures |r| == |partitions|
    ensures forall i :: 0 <= i < |r| ==> r[i] == Located(streamId, topicId, partitions[i])
  {
    seq(|partitions|, i requires 0 <= i < |partitions| => Located(streamId, topicId, partitions[i]))
  }

  /** Every partition of every topic of one stream, topic by topic. */
  function TopicPartitions(streamId: nat, topics: seq<Topic>): seq<Located>
  {
    if |topics| == 0 then []
    else Locate(streamId, topics[0].id, topics[0].partitions) + TopicPartitions(streamId, topics[1..])
  }

  /** Every partition of every topic of every stream, stream by stream:
      the order in which `clean_cache` visits them. */
  function AllPartitions(streams: seq<Stream>): seq<Located>
  {
    if |streams| == 0 then []
    else TopicPartitions(streams[0].id, streams[0].topics) + AllPartitions(streams[1..])
  }

  function RequestFor(p: Located, usageBytes: nat, sizeToClean: nat): (r: EvictionRequest)
    requires usageBytes > 0
  {
    EvictionRequest(p.streamId, p.topicId, p.partition.id,
                    EvictionTarget(p.partition.cacheSize, usageBytes, sizeToClean))
  }

  /** One request per visited partition, in visiting order. */
  function Requests(ps: seq<Located>, usageBytes: nat, sizeToClean: nat): (r: seq<EvictionRequest>)
    requires usageBytes > 0
    ensures |r| == |ps|
    ensures forall i :: 0 <= i < |ps| ==> r[i] == RequestFor(ps[i], usageBytes, sizeToClean)
  {
    seq(|ps|, i requires 0 <= i < |ps| => RequestFor(ps[i], usageBytes, sizeToClean))
  }

  lemma RequestsAppend(a: seq<Located>, b: seq<Located>, usageBytes: nat, sizeToClean: nat)
    requires usageBytes > 0
    ensures Requests(a + b, usageBytes, sizeToClean) ==
            Requests(a, usageBytes, sizeToClean) + Requests(b, usageBytes, sizeToClean)
  {
  }

  lemma {:induction false} TopicPartitionsSnoc(streamId: nat, topics: seq<Topic>, t: Topic)
    ensures TopicPartitions(streamId, topics + [t]) ==
            TopicPartitions(streamId, topics) + Locate(streamId, t.id, t.partitions)
  {
    if |topics| == 0 {
      assert topics + [t] == [t];
    } else {
      assert (topics + [t])[1..] == topics[1..] + [t];
      TopicPartitionsSnoc(streamId, topics[1..], t);
    }
  }

  lemma {:induction false} AllPartitionsSnoc(streams: seq<Stream>, s: Stream)
    ensures AllPartitions(streams + [s]) == AllPartitions(streams) + TopicPartitions(s.id, s.topics)
  {
    if |streams| == 0 {
      assert streams + [s] == [s];
    } else {
      assert (streams + [s])[1..] == streams[1..] + [s];
      AllPartitionsSnoc(streams[1..], s);
    }
  }

  /** The number of partitions in the given topics. */
  function TopicSlots(topics: seq<Topic>): nat
  {
    if |topics| == 0 then 0 else |topics[0].partitions| + TopicSlots(topics[1..])
  }

  /** The number of partitions in all streams, counted topic by topic. */
  function PartitionCount(streams: seq<Stream>): nat
  {
    if |streams| == 0 then 0 else TopicSlots(streams[0].topics) + PartitionCount(streams[1..])
  }

  /** One stream's visiting order lists each of its partitions once. */
  lemma {:induction false} TopicPartitionsCount(streamId: nat, topics: seq<Topic>)
    ensures |TopicPartitions(streamId, topics)| == TopicSlots(topics)
  {
    if |topics| > 0 {
      TopicPartitionsCount(streamId, topics[1..]);
    }
  }

  /** The visiting order has exactly as many entries as there are partitions. */
  lemma {:induction false} AllPartitionsCount(streams: seq<Stream>)
    ensures |AllPartitions(streams)| == PartitionCount(streams)
  {
    if |streams| > 0 {
      TopicPartitionsCount(streams[0].id, streams[0].topics);
      AllPartitionsCount(streams[1..]);
    }
  }

  /** The sum of the cache sizes of the given partitions. */
  function TotalCacheSize(ps: seq<Located>): nat
  {
    if |ps| == 0 then 0 else ps[0].partition.cacheSize + TotalCacheSize(ps[1..])
  }

  /** The sum of the bytes requested. */
  function TotalRequested(rs: seq<EvictionRequest>): nat
  {
    if |rs| == 0 then 0 else rs[0].bytes + TotalRequested(rs[1..])
  }

  /** Summed over partitions, the requests cover the factor times each
      partition's exact share. */
  lemma {:induction false} RequestsCoverShares(ps: seq<Located>, usageBytes: nat, sizeToClean: nat)
    requires usageBytes > 0
    ensures TotalRequested(Requests(ps, usageBytes, sizeToClean)) * usageBytes >=
              (CACHE_OVER_EVICTION_FACTOR * sizeToClean) * TotalCacheSize(ps)
  {
    if |ps| > 0 {
      var rs := Requests(ps, usageBytes, sizeToClean);
      assert rs[1..] == Requests(ps[1..], usageBytes, sizeToClean);
      RequestsCoverShares(ps[1..], usageBytes, sizeToClean);
      var c := ps[0].partition.cacheSize;
      var t := rs[0].bytes;
      TargetCoversShare(c, usageBytes, sizeToClean);
      var restRequested := TotalRequested(rs[1..]);
      var restCached := TotalCacheSize(ps[1..]);
      assert TotalRequested(rs) == t + restRequested;
      assert TotalCacheSize(ps) == c + restCached;
      Distribute(t, restRequested, usageBytes);
      Distribute(c, restCached, CACHE_OVER_EVICTION_FACTOR * sizeToClean);
    }
  }

  /** When the tracked usage is the sum of all cache sizes, one pass asks
      for at least the factor times the bytes to clean in total. */
  lemma CleanCacheReclaimsEnough(streams: seq<Stream>, usageBytes: nat, sizeToClean: nat)
    requires usageBytes > 0 && usageBytes == TotalCacheSize(AllPartitions(streams))
    ensures TotalRequested(Requests(AllPartitions(streams), usageBytes, sizeToClean)) >=
              CACHE_OVER_EVICTION_FACTOR * sizeToClean
  {
    var total := TotalRequested(Requests(AllPartitions(streams), usageBytes, sizeToClean));
    RequestsCoverShares(AllPartitions(streams), usageBytes, sizeToClean);
    assert (CACHE_OVER_EVICTION_FACTOR * sizeToClean) * usageBytes == (CACHE_OVER_EVICTION_FACTOR * sizeToClean) * TotalCacheSize(AllPartitions(streams));
    CancelPositive(total, CACHE_OVER_EVICTION_FACTOR * sizeToClean, usageBytes);
  }

  // ---------------------------------------------------------------------
  // `init`: directories first, then loading
  // ---------------------------------------------------------------------

  /** The directories `init` touches. `refused` holds the paths at which
      `create_dir` fails (no permission, missing parent, I/O error). */
  class FileSystem {
    var directories: set<string>
    const refused: set<string>

    constructor (directories: set<string>, refused: set<string>)
      ensures this.directories == directories && this.refused == refused
    {
      this.directories := directories;
      this.refused := refused;
    }

    /** `Path::exists`. */
    method Exists(path: string) returns (b: bool)
      ensures b <==> path in directories
    {
      b := path in directories;
    }

    /** `create_dir`: fails on an existing path and on a refused one. */
    method CreateDir(path: string) returns (ok: bool)
      modifies this
      ensures ok <==> path !in old(directories) && path !in refused
      ensures directories == if ok then old(directories) + {path} else old(directories)
    {
      ok := path !in directories && path !in refused;
      if ok {
        directories := directories + {path};
      }
    }
  }

  /** The outcomes of `load_version`, `load_users` and `load_streams`,
      which are not part of this model. */
  datatype LoadOutcomes = LoadOutcomes(version: Result<(), Error>, users: Result<(), Error>, streams: Result<(), Error>)

  /** One directory step: fine when the directory exists or can be made. */
  predicate DirectoryReady(directories: set<string>, refused: set<string>, path: string)
  {
    path in directories || path !in refused
  }

  /** What `init` returns, given the directories before it runs. */
  function InitOutcome(config: SystemConfig, directories: set<string>, refused: set<string>,
                       loads: LoadOutcomes): Result<(), Error>
  {
    if !DirectoryReady(directories, refused, config.systemPath) then Err(CannotCreateBaseDirectory)
    else if !DirectoryReady(directories + {config.systemPath}, refused, config.streamsPath) then
      Err(CannotCreateStreamsDirectory)
    else if loads.version.Err? then loads.version
    else if loads.users.Err? then loads.users
    else if loads.streams.Err? then loads.streams
    else Ok(())
  }

  /** The directories after `init`: the base directory if it could be made,
      then the streams directory if that step was reached and it could be made. */
  function InitDirectories(config: SystemConfig, directories: set<string>, refused: set<string>): set<string>
  {
    if !DirectoryReady(directories, refused, config.systemPath) then directories
    else
      var afterBase := directories + {config.systemPath};
      if !DirectoryReady(afterBase, refused, config.streamsPath) then afterBase
      else afterBase + {config.streamsPath}
  }

  /** `CannotCreateStreamsDirectory` is reported only once the base step
      passed, and a failed base step is reported whatever follows it. */
  lemma InitChecksBaseFirst(config: SystemConfig, directories: set<string>, refused: set<string>,
                            loads: LoadOutcomes)
    ensures InitOutcome(config, directories, refused, loads) == Err(CannotCreateStreamsDirectory) ==>
              DirectoryReady(directories, refused, config.systemPath)
    ensures !DirectoryReady(directories, refused, config.systemPath) ==>
              InitOutcome(config, directories, refused, loads) == Err(CannotCreateBaseDirectory)
    ensures !DirectoryReady(directories, refused, config.systemPath) ==>
              InitDirectories(config, directories, refused) == directories
  {
  }

  /** `init` succeeds exactly when both directories are in place afterwards
      and every load succeeded; loading is reached only after both
      directory steps passed. */
  lemma InitSucceedsIff(config: SystemConfig, directories: set<string>, refused: set<string>,
                        loads: LoadOutcomes)
    ensures InitOutcome(config, directories, refused, loads).Ok? <==>
              config.systemPath in InitDirectories(config, directories, refused) &&
              config.streamsPath in InitDirectories(config, directories, refused) &&
              loads.version.Ok? && loads.users.Ok? && loads.streams.Ok?
    ensures InitDirectories(config, directories, refused) >= directories
  {
    var base := config.systemPath;
    var s := config.streamsPath;
    if !DirectoryReady(directories, refused, base) {
      assert base !in InitDirectories(config, directories, refused);
    } else if !DirectoryReady(directories + {base}, refused, s) {
      assert s !in InitDirectories(config, directories, refused);
    }
  }

  // ---------------------------------------------------------------------
  // The system
  // ---------------------------------------------------------------------

  class System {
    const config: SystemConfig
    const persister: Persister
    const encryptor: Option<Encryptor>
    var permissioner: Permissions.Permissioner
    /** The streams, in the order `streams.values()` yields them. */
    var streams: seq<Stream>

    /** The fields `create` sets: no streams, a default permissioner. */
    constructor (config: SystemConfig, persister: Persister, encryptor: Option<Encryptor>)
      ensures this.config == config && this.persister == persister && this.encryptor == encryptor
      ensures streams == [] && permissioner == Permissions.Permissioner(map[])
    {
      this.config := config;
      this.persister := persister;
      this.encryptor := encryptor;
      permissioner := Permissions.Permissioner(map[]);
      streams := [];
    }

    /** `System::create`, given the persister of the storage passed in. */
    static method Create(config: SystemConfig, persister: Persister, isValidKey: string -> bool)
      returns (r: Startup<System>)
      ensures r.Panicked? <==> CreateEncryptor(config.encryption, isValidKey).Panicked?
      ensures r.Panicked? ==> r.reason == InvalidEncryptionKey
      ensures r.Started? ==>
                fresh(r.value) && r.value.config == config && r.value.persister == persister &&
                r.value.encryptor == CreateEncryptor(config.encryption, isValidKey).value &&
                r.value.streams == [] && r.value.permissioner == Permissions.Permissioner(map[])
    {
      match CreateEncryptor(config.encryption, isValidKey)
      case Panicked(reason) =>
        r := Panicked(reason);
      case Started(encryptor) =>
        var system := new System(config, persister, encryptor);
        r := Started(system);
    }

    /** `System::new`. Without a database handle it opens one at the
        configured path (`databaseOpens` says whether `sled::open`
        succeeds) and panics if that fails; the persister follows
        `enforce_fsync`. */
    static method New(config: SystemConfig, databaseGiven: bool, databaseOpens: bool,
                      isValidKey: string -> bool)
      returns (r: Startup<System>)
      ensures !databaseGiven && !databaseOpens ==> r == Panicked(CannotOpenDatabase(config.databasePath))
      ensures databaseGiven || databaseOpens ==>
                (r.Panicked? <==> CreateEncryptor(config.encryption, isValidKey).Panicked?)
      ensures r.Panicked? && (databaseGiven || databaseOpens) ==> r.reason == InvalidEncryptionKey
      ensures r.Started? ==>
                fresh(r.value) && r.value.config == config &&
                r.value.persister == ChoosePersister(config.enforceFsync) &&
                r.value.encryptor == CreateEncryptor(config.encryption, isValidKey).value &&
                (r.value.encryptor.Some? <==> config.encryption.enabled) &&
                r.value.streams == [] && r.value.permissioner == Permissions.Permissioner(map[])
    {
      if !databaseGiven && !databaseOpens {
        return Panicked(CannotOpenDatabase(config.databasePath));
      }
      var persister := ChoosePersister(config.enforceFsync);
      r := Create(config, persister, isValidKey);
      if r.Started? {
        EncryptorPresentIffEnabled(config.encryption, isValidKey);
      }
    }

    /** `init`: make sure the base directory and then the streams directory
        exist, creating each when missing, then load the stored state; the
        first failure is returned. */
    method Init(fs: FileSystem, loads: LoadOutcomes) returns (r: Result<(), Error>)
      modifies fs
      ensures r == InitOutcome(config, old(fs.directories), fs.refused, loads)
      ensures fs.directories == InitDirectories(config, old(fs.directories), fs.refused)
    {
      var present := fs.Exists(config.systemPath);
      if !present {
        var created := fs.CreateDir(config.systemPath);
        if !created {
          return Err(CannotCreateBaseDirectory);
        }
      }
      present := fs.Exists(config.streamsPath);
      if !present {
        var created := fs.CreateDir(config.streamsPath);
        if !created {
          return Err(CannotCreateStreamsDirectory);
        }
      }
      if loads.version.Err? {
        return loads.version;
      }
      if loads.users.Err? {
        return loads.users;
      }
      if loads.streams.Err? {
        return loads.streams;
      }
      r := Ok(());
    }

    /** `persist_messages`: persists stream after stream (`persistStream`
        stands for `Stream::persist_messages`) and stops at the first
        failure, returning it. The ghost `attempted` is how many streams were
        asked; it exists only for the contract. */
    method PersistMessages(persistStream: Stream -> Result<(), Error>)
      returns (r: Result<(), Error>, ghost attempted: nat)
      ensures attempted <= |streams|
      ensures r.Ok? <==> forall i :: 0 <= i < |streams| ==> persistStream(streams[i]).Ok?
      ensures r.Ok? ==> attempted == |streams|
      ensures r.Err? ==> 0 < attempted && r == persistStream(streams[attempted - 1])
      ensures forall i :: 0 <= i < attempted - 1 ==> persistStream(streams[i]).Ok?
    {
      var i := 0;
      while i < |streams|
        invariant 0 <= i <= |streams|
        invariant forall k :: 0 <= k < i ==> persistStream(streams[k]).Ok?
      {
        var outcome := persistStream(streams[i]);
        if outcome.Err? {
          return outcome, i + 1;
        }
        i := i + 1;
      }
      r, attempted := Ok(()), i;
    }

    /** `shutdown`: persisting is all it does. */
    method Shutdown(persistStream: Stream -> Result<(), Error>) returns (r: Result<(), Error>)
      ensures r.Ok? <==> forall i :: 0 <= i < |streams| ==> persistStream(streams[i]).Ok?
      ensures r.Err? ==> exists k :: 0 <= k < |streams| && r == persistStream(streams[k]) &&
                            forall i :: 0 <= i < k ==> persistStream(streams[i]).Ok?
    {
      ghost var attempted;
      r, attempted := PersistMessages(persistStream);
    }

    /** `clean_cache`: one eviction request for every partition of every
        topic of every stream, in visiting order, each for the partition's
        `EvictionTarget`. `usageBytes` is the memory tracker's
        `usage_bytes()`, read once per partition and constant here. */
    method CleanCache(sizeToClean: nat, usageBytes: nat) returns (requests: seq<EvictionRequest>)
      requires usageBytes > 0
      ensures requests == Requests(AllPartitions(streams), usageBytes, sizeToClean)
      ensures |requests| == PartitionCount(streams)
    {
      requests := [];
      var i := 0;
      while i < |streams|
        invariant 0 <= i <= |streams|
        invariant requests == Requests(AllPartitions(streams[..i]), usageBytes, sizeToClean)
      {
        var stream := streams[i];
        var more := CleanStream(stream, usageBytes, sizeToClean);
        assert streams[..i + 1] == streams[..i] + [stream];
        AllPartitionsSnoc(streams[..i], stream);
        RequestsAppend(AllPartitions(streams[..i]), TopicPartitions(stream.id, stream.topics),
                       usageBytes, sizeToClean);
        requests := requests + more;
        i := i + 1;
      }
      assert streams[..i] == streams;
      AllPartitionsCount(streams);
    }
  }

  /** The requests `clean_cache` issues for one stream: topic by topic. */
  method CleanStream(stream: Stream, usageBytes: nat, sizeToClean: nat) returns (requests: seq<EvictionRequest>)
    requires usageBytes > 0
    ensures requests == Requests(TopicPartitions(stream.id, stream.topics), usageBytes, sizeToClean)
  {
    requests := [];
    var j := 0;
    while j < |stream.topics|
      invariant 0 <= j <= |stream.topics|
      invariant requests == Requests(TopicPartitions(stream.id, stream.topics[..j]), usageBytes, sizeToClean)
    {
      var topic := stream.topics[j];
      var more := CleanTopic(stream.id, topic, usageBytes, sizeToClean);
      assert stream.topics[..j + 1] == stream.topics[..j] + [topic];
      TopicPartitionsSnoc(stream.id, stream.topics[..j], topic);
      RequestsAppend(TopicPartitions(stream.id, stream.topics[..j]), Locate(stream.id, topic.id, topic.partitions),
                     usageBytes, sizeToClean);
      requests := requests + more;
      j := j + 1;
    }
    assert stream.topics[..j] == stream.topics;
  }

  /** The requests `clean_cache` issues for one topic: one per partition,
      in order, each for the partition's target. */
  method CleanTopic(streamId: nat, topic: Topic, usageBytes: nat, sizeToClean: nat)
    returns (requests: seq<EvictionRequest>)
    requires usageBytes > 0
    ensures |requests| == |topic.partitions|
    ensures forall k :: 0 <= k < |requests| ==>
              requests[k] == EvictionRequest(streamId, topic.id, topic.partitions[k].id,
                                             EvictionTarget(topic.partitions[k].cacheSize, usageBytes, sizeToClean))
    ensures requests == Requests(Locate(streamId, topic.id, topic.partitions), usageBytes, sizeToClean)
  {
    requests := [];
    var k := 0;
    while k < |topic.partitions|
      invariant 0 <= k <= |topic.partitions|
      invariant |requests| == k
      invariant forall m :: 0 <= m < k ==>
                  requests[m] == EvictionRequest(streamId, topic.id, topic.partitions[m].id,
                                                 EvictionTarget(topic.partitions[m].cacheSize, usageBytes, sizeToClean))
    {
      var partition := topic.partitions[k];
      requests := requests + [EvictionRequest(streamId, topic.id, partition.id,
                                              EvictionTarget(partition.cacheSize, usageBytes, sizeToClean))];
      k := k + 1;
    }
  }

  /** Every partition of every topic of every stream gets exactly one
      request, carrying that partition's location and target. */
  lemma OneRequestPerPartition(streams: seq<Stream>, usageBytes: nat, sizeToClean: nat, i: nat)
    requires usageBytes > 0 && i < |AllPartitions(streams)|
    ensures var p := AllPartitions(streams)[i];
            var r := Requests(AllPartitions(streams), usageBytes, sizeToClean)[i];
            r.streamId == p.streamId && r.topicId == p.topicId && r.partitionId == p.partition.id &&
            r.bytes == EvictionTarget(p.partition.cacheSize, usageBytes, sizeToClean)
  {
  }

  /** A partition belongs to the visited list exactly when it sits in a
      topic of a stream. */
  lemma {:induction false} AllPartitionsMembership(streams: seq<Stream>, p: Located)
    ensures p in AllPartitions(streams) <==>
              exists s, t :: s in streams && t in s.topics && p.partition in t.partitions &&
                             p.streamId == s.id && p.topicId == t.id
  {
    if |streams| > 0 {
      AllPartitionsMembership(streams[1..], p);
      TopicPartitionsMembership(streams[0].id, streams[0].topics, p);
      assert streams == [streams[0]] + streams[1..];
    }
  }

  lemma {:induction false} TopicPartitionsMembership(streamId: nat, topics: seq<Topic>, p: Located)
    ensures p in TopicPartitions(streamId, topics) <==>
              p.streamId == streamId &&
              exists t :: t in topics && p.partition in t.partitions && p.topicId == t.id
  {
    if |topics| > 0 {
      TopicPartitionsMembership(streamId, topics[1..], p);
      assert topics == [topics[0]] + topics[1..];
      var l := Locate(streamId, topics[0].id, topics[0].partitions);
      assert p in l <==> p.streamId == streamId && p.topicId == topics[0].id && p.partition in topics[0].partitions by {
        if p.partition in topics[0].partitions && p.streamId == streamId && p.topicId == topics[0].id {
          var k :| 0 <= k < |topics[0].partitions| && topics[0].partitions[k] == p.partition;
          assert l[k] == p;
        }
      }
    }
  }
}
