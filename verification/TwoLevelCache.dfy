/** The two-level cache, src/common/cache/cache.service.ts: an in-memory level in front of
    Redis, with promotion of high-priority reads. Values are the cached JSON texts. */
module TwoLevelCache {
  import opened Basics

  const MEMORY_TTL := 60
  const REDIS_TTL := 600

  datatype Entry = Entry(value: string, expiresAt: int)
  datatype Cache = Cache(memory: map<string, Entry>, redis: map<string, Entry>)

  const EMPTY := Cache(map[], map[])

  datatype Level = MEMORY | REDIS | BOTH

  /** What is rejected during a read. */
  datatype ReadFault = ReadsFine | MemoryReadFails | RedisReadFails | PromotionFails

  /** The options of a read that matter, priority 'high' and storeLevel 'memory', and its fault. */
  datatype Read = Read(high: bool, fromMemory: bool, fault: ReadFault)

  /** Which of the two writes of a set is rejected. */
  datatype Faults = NoFault | MemoryFault | RedisFault

  /** What is rejected during an invalidation: the deletion from Redis, after it got through some
      of the keys, or the reset of memory. */
  datatype InvalidateFault = InvalidatesFine | DeletionFails(done: set<string>) | ResetFails

  function Live(level: map<string, Entry>, key: string, now: int): Option<string> {
    if key in level && now < level[key].expiresAt then Some(level[key].value) else None
  }

  /** A rejection anywhere in a read, even in the promotion of a value that was found, makes it
      a miss. */
  function GetIn(c: Cache, key: string, read: Read, now: int): (Cache, Option<string>) {
    var consultsMemory := read.high || read.fromMemory;
    var inMemory := if consultsMemory then Live(c.memory, key, now) else None;
    var inRedis := Live(c.redis, key, now);
    if consultsMemory && read.fault.MemoryReadFails? then (c, None)
    else if inMemory.Some? then (c, inMemory)
    else if read.fault.RedisReadFails? then (c, None)
    else if inRedis.Some? && read.high then
      if read.fault.PromotionFails? then (c, None)
      else (c.(memory := c.memory[key := Entry(inRedis.value, now + MEMORY_TTL * 1000)]), inRedis)
    else (c, inRedis)
  }

  /** The TTL of an entry in seconds: the default when none is given, or 0. */
  function Ttl(ttl: Option<nat>, default: nat): nat {
    if ttl.Some? && ttl.value != 0 then ttl.value else default
  }

  predicate ReachesMemory(level: Level, fault: Faults) {
    level != REDIS && fault != MemoryFault
  }

  predicate ReachesRedis(level: Level, fault: Faults) {
    level != MEMORY && fault != RedisFault && (level == BOTH ==> fault != MemoryFault)
  }

  /** A rejected write ends the set; what was written before it stays. */
  function SetIn(c: Cache, key: string, value: string, ttl: Option<nat>, level: Level, fault: Faults, now: int): Cache {
    Cache(if ReachesMemory(level, fault) then c.memory[key := Entry(value, now + Ttl(ttl, MEMORY_TTL) * 1000)]
          else c.memory,
          if ReachesRedis(level, fault) then c.redis[key := Entry(value, now + Ttl(ttl, REDIS_TTL) * 1000)]
          else c.redis)
  }

  /** invalidate: the matching keys leave Redis, and memory is cleared as a whole. */
  function InvalidateIn(c: Cache, matching: set<string>, fault: InvalidateFault): Cache {
    match fault
    case InvalidatesFine => Cache(map[], c.redis - matching)
    case DeletionFails(done) => Cache(c.memory, c.redis - matching * done)
    case ResetFails => Cache(c.memory, c.redis - matching)
  }

  /** invalidatePattern, which the role service calls: the matching keys leave both levels. */
  function Drop(c: Cache, matching: set<string>): Cache {
    Cache(c.memory - matching, c.redis - matching)
  }

  // ---------- runs ----------

  datatype Op =
    | DoGet(key: string, read: Read)
    | DoSet(key: string, value: string, ttl: Option<nat>, level: Level, fault: Faults)
    | DoInvalidate(matching: set<string>, invalidateFault: InvalidateFault)
    | DoDrop(matching: set<string>)

  datatype Step = Step(at: int, op: Op)

  function Apply(c: Cache, s: Step): Cache {
    match s.op
    case DoGet(key, read) => GetIn(c, key, read, s.at).0
    case DoSet(key, value, ttl, level, fault) => SetIn(c, key, value, ttl, level, fault, s.at)
    case DoInvalidate(matching, fault) => InvalidateIn(c, matching, fault)
    case DoDrop(matching) => Drop(c, matching)
  }

  function After(steps: seq<Step>): Cache {
    if steps == [] then EMPTY else Apply(After(steps[..|steps| - 1]), steps[|steps| - 1])
  }

  ghost predicate Ordered(steps: seq<Step>) {
    forall i, j :: 0 <= i < j < |steps| ==> steps[i].at <= steps[j].at
  }

  /** The value of the last set of a key. */
  function LastSet(steps: seq<Step>, key: string): Option<string> {
    if steps == [] then None
    else
      var op := steps[|steps| - 1].op;
      if op.DoSet? && op.key == key then Some(op.value) else LastSet(steps[..|steps| - 1], key)
  }

  /** A level to write to, and what is rejected. */
  type Write = (Level, Faults)

  /** Every write of the key is one of those permitted. */
  ghost predicate WritesIn(steps: seq<Step>, key: string, permitted: set<Write>) {
    forall i :: 0 <= i < |steps| && steps[i].op.DoSet? && steps[i].op.key == key ==>
      (steps[i].op.level, steps[i].op.fault) in permitted
  }

  /** Written to Redis alone, whether or not that goes through. */
  const TO_REDIS: set<Write> := {(REDIS, NoFault), (REDIS, MemoryFault), (REDIS, RedisFault)}

  // ---------- keys with a single view ----------

  /** A set that goes through to both levels is visible to every read until its TTL is over,
      and no other key notices. */
  lemma SetIsVisible(c: Cache, key: string, value: string, ttl: Option<nat>, at: int, read: Read, now: int)
    requires read.fault.ReadsFine?
    ensures var c' := SetIn(c, key, value, ttl, BOTH, NoFault, at);
      var ttlMs := if ttl.Some? && ttl.value > 0 then ttl.value * 1000 else 600000;
      && GetIn(c', key, read, now).1 == (if now < at + ttlMs then Some(value) else None)
      && forall k :: k != key ==> GetIn(c', k, read, now).1 == GetIn(c, k, read, now).1
  {
  }

  /** A rejection on its way makes a read a miss that leaves the cache alone, whatever is stored;
      one that the read does not come across has no effect. */
  lemma FailedReadsExactly(c: Cache, key: string, read: Read, now: int)
    ensures var consults, fine := read.high || read.fromMemory, read.(fault := ReadsFine);
      var inMemory, inRedis := consults && Live(c.memory, key, now).Some?, Live(c.redis, key, now).Some?;
      var hit := match read.fault
                 case ReadsFine => false
                 case MemoryReadFails => consults
                 case RedisReadFails => !inMemory
                 case PromotionFails => read.high && !inMemory && inRedis;
      GetIn(c, key, read, now) == if hit then (c, None) else GetIn(c, key, fine, now)
  {
  }

  /** The writes of a set happen in turn, memory first: the first one rejected is the end of it. */
  lemma FailedSetsExactly(c: Cache, key: string, value: string, ttl: Option<nat>, level: Level, now: int)
    ensures var set_ := (l, f) => SetIn(c, key, value, ttl, l, f, now);
      && set_(level, MemoryFault) == (if level == REDIS then set_(REDIS, NoFault) else c)
      && set_(level, RedisFault) == (if level == REDIS then c else set_(MEMORY, NoFault))
      && set_(BOTH, NoFault) == Cache(set_(MEMORY, NoFault).memory, set_(REDIS, NoFault).redis)
  {
  }

  predicate Reaches(w: Write, memory: bool, redis: bool) {
    ReachesMemory(w.0, w.1) == memory && ReachesRedis(w.0, w.1) == redis
  }

  /** How long each level keeps what is set: the given seconds, or else a minute in memory and
      ten minutes in Redis. A set at one level leaves the other one alone. */
  lemma SetReachesExactly(c: Cache, key: string, value: string, ttl: Option<nat>, level: Level, at: int,
                          k: string, now: int)
    ensures var c' := SetIn(c, key, value, ttl, level, NoFault, at);
      var given := ttl.Some? && ttl.value > 0;
      var memoryMs, redisMs := if given then ttl.value * 1000 else 60000, if given then ttl.value * 1000 else 600000;
      && Live(c'.memory, k, now) == (if k != key || level == REDIS then Live(c.memory, k, now)
                                     else if now < at + memoryMs then Some(value) else None)
      && Live(c'.redis, k, now) == (if k != key || level == MEMORY then Live(c.redis, k, now)
                                    else if now < at + redisMs then Some(value) else None)
  {
  }

  lemma {:induction false} LevelsHoldLastSet(steps: seq<Step>, key: string, permitted: set<Write>,
                                             memory: bool, redis: bool)
    requires WritesIn(steps, key, permitted) && forall w :: w in permitted ==> Reaches(w, memory, redis)
    requires redis ==> memory
    ensures var c := After(steps);
      && (key in c.memory ==> memory && Some(c.memory[key].value) == LastSet(steps, key))
      && (key in c.redis ==> redis && Some(c.redis[key].value) == LastSet(steps, key))
  {
    if steps != [] {
      var n := |steps| - 1;
      LevelsHoldLastSet(steps[..n], key, permitted, memory, redis);
      if steps[n].op.DoSet? && steps[n].op.key == key {
        assert Reaches((steps[n].op.level, steps[n].op.fault), memory, redis);
      }
    }
  }

  /** Reads of the key, at any time and priority, return the last value set or nothing. */
  ghost predicate ReadsLastSet(steps: seq<Step>, key: string) {
    forall read, now :: GetIn(After(steps), key, read, now).1 in {None, LastSet(steps, key)}
  }

  /** Whatever else happens in the cache, and whatever is rejected besides these writes. */
  ghost predicate Coherent(key: string, permitted: set<Write>) {
    forall steps :: Ordered(steps) && WritesIn(steps, key, permitted) ==> ReadsLastSet(steps, key)
  }

  /** All writes reach the same levels, and those are not Redis alone. */
  predicate OneView(permitted: set<Write>) {
    && (forall v, w :: v in permitted && w in permitted ==>
          Reaches(v, ReachesMemory(w.0, w.1), ReachesRedis(w.0, w.1)))
    && (forall w :: w in permitted ==> !Reaches(w, false, true))
  }

  function PromoteThenOverwrite(key: string, w: Write): seq<Step> {
    [Step(0, DoSet(key, "1", None, w.0, w.1)), Step(0, DoGet(key, Read(true, false, ReadsFine))),
     Step(0, DoSet(key, "2", None, w.0, w.1))]
  }

  lemma AfterPromotion(key: string, w: Write)
    requires Reaches(w, false, true)
    ensures var steps := PromoteThenOverwrite(key, w);
      && Ordered(steps) && WritesIn(steps, key, {w}) && LastSet(steps, key) == Some("2")
      && After(steps) == Cache(map[key := Entry("1", MEMORY_TTL * 1000)], map[key := Entry("2", REDIS_TTL * 1000)])
  {
    var steps := PromoteThenOverwrite(key, w);
    assert steps[..2][..1][..0] == [];
    assert After(steps[..2][..1]) == Cache(map[], map[key := Entry("1", REDIS_TTL * 1000)]);
    assert After(steps[..2])
           == Cache(map[key := Entry("1", MEMORY_TTL * 1000)], map[key := Entry("1", REDIS_TTL * 1000)]);
  }

  function WriteTwice(key: string, v: Write, w: Write): seq<Step> {
    [Step(0, DoSet(key, "1", None, v.0, v.1)), Step(0, DoSet(key, "2", None, w.0, w.1))]
  }

  /** A level that only the first of two writes reaches still answers with it. */
  lemma FirstWriteShows(key: string, v: Write, w: Write)
    requires (ReachesMemory(v.0, v.1) && !ReachesMemory(w.0, w.1))
             || (ReachesRedis(v.0, v.1) && !ReachesRedis(w.0, w.1))
    ensures Ordered(WriteTwice(key, v, w)) && WritesIn(WriteTwice(key, v, w), key, {v, w})
    ensures !ReadsLastSet(WriteTwice(key, v, w), key)
  {
    var steps := WriteTwice(key, v, w);
    assert steps[..1][..0] == [];
    assert After(steps[..1]) == SetIn(EMPTY, key, "1", None, v.0, v.1, 0);
    assert LastSet(steps, key) == Some("2");
    var read := Read(false, !(ReachesRedis(v.0, v.1) && !ReachesRedis(w.0, w.1)), ReadsFine);
    assert GetIn(After(steps), key, read, 0).1 == Some("1");
  }

  /** Reads of a key return its last set value or nothing on every run exactly when all writes
      that may happen to it reach the same levels, and those are not Redis alone. */
  lemma CoherentExactly(key: string, permitted: set<Write>)
    ensures Coherent(key, permitted) <==> OneView(permitted)
  {
    if OneView(permitted) {
      var memory := exists w :: w in permitted && ReachesMemory(w.0, w.1);
      var redis := exists w :: w in permitted && ReachesRedis(w.0, w.1);
      forall steps | Ordered(steps) && WritesIn(steps, key, permitted)
        ensures ReadsLastSet(steps, key)
      {
        LevelsHoldLastSet(steps, key, permitted, memory, redis);
      }
    } else if w :| w in permitted && Reaches(w, false, true) {
      AfterPromotion(key, w);
      var steps := PromoteThenOverwrite(key, w);
      assert GetIn(After(steps), key, Read(true, false, ReadsFine), 0).1 == Some("1");
      assert !ReadsLastSet(steps, key) && WritesIn(steps, key, permitted);
    } else {
      var v, w :| v in permitted && w in permitted && !Reaches(v, ReachesMemory(w.0, w.1), ReachesRedis(w.0, w.1));
      DifferentReachIsStale(key, v, w);
    }
  }

  lemma DifferentReachIsStale(key: string, v: Write, w: Write)
    requires !Reaches(v, ReachesMemory(w.0, w.1), ReachesRedis(w.0, w.1))
    ensures exists steps :: Ordered(steps) && WritesIn(steps, key, {v, w}) && !ReadsLastSet(steps, key)
  {
    if (ReachesMemory(v.0, v.1) && !ReachesMemory(w.0, w.1)) || (ReachesRedis(v.0, v.1) && !ReachesRedis(w.0, w.1)) {
      FirstWriteShows(key, v, w);
    } else {
      FirstWriteShows(key, w, v);
      assert WritesIn(WriteTwice(key, w, v), key, {v, w});
    }
  }

  /** A key that is always set on both levels stays coherent exactly when all its sets meet the
      same fate: one that goes through and one that is rejected, at either level, do not mix. */
  lemma RejectedWritesExactly(key: string, faults: set<Faults>)
    ensures Coherent(key, set f | f in faults :: (BOTH, f)) <==> forall f, g :: f in faults && g in faults ==> f == g
  {
    var permitted: set<Write> := set f | f in faults :: (BOTH, f);
    CoherentExactly(key, permitted);
    if f, g :| f in faults && g in faults && f != g {
      assert (BOTH, f) in permitted && (BOTH, g) in permitted;
    }
  }

  // ---------- invalidations ----------

  /** The step removes the key for certain: an invalidation that goes through, or a deletion. */
  predicate Removes(op: Op, key: string) {
    match op
    case DoInvalidate(matching, fault) => key in matching && fault.InvalidatesFine?
    case DoDrop(matching) => key in matching
    case _ => false
  }

  predicate Sets(op: Op, key: string) {
    op.DoSet? && op.key == key
  }

  /** Until the key is set again nothing is left of it after its removal. */
  lemma {:induction false} RemovedStaysAway(steps: seq<Step>, i: nat, key: string)
    requires i < |steps| && Removes(steps[i].op, key)
    requires forall j :: i < j < |steps| ==> !Sets(steps[j].op, key)
    ensures key !in After(steps).memory && key !in After(steps).redis
  {
    var n := |steps| - 1;
    if i < n {
      RemovedStaysAway(steps[..n], i, key);
    }
  }

  /** A read finds a value only if some set of the key comes after the last step that removed it,
      whatever else happened and was rejected in between. */
  lemma ReadsNothingRemoved(steps: seq<Step>, i: nat, key: string, read: Read, now: int)
    requires i < |steps| && Removes(steps[i].op, key)
    requires GetIn(After(steps), key, read, now).1.Some?
    ensures exists j :: i < j < |steps| && Sets(steps[j].op, key)
  {
    if forall j :: i < j < |steps| ==> !Sets(steps[j].op, key) {
      RemovedStaysAway(steps, i, key);
    }
  }

  /** And only if there was such a set at all. */
  lemma {:induction false} NothingFromNothing(steps: seq<Step>, key: string)
    requires forall j :: 0 <= j < |steps| ==> !Sets(steps[j].op, key)
    ensures key !in After(steps).memory && key !in After(steps).redis
  {
    if steps != [] {
      NothingFromNothing(steps[..|steps| - 1], key);
    }
  }

  /** What an invalidation leaves: of Redis all entries that do not match, and of memory nothing.
      A rejected deletion leaves memory and whatever Redis had not deleted by then; a rejected
      reset leaves memory. */
  lemma InvalidationLeaves(c: Cache, at: int, matching: set<string>, fault: InvalidateFault, k: string)
    ensures var c' := Apply(c, Step(at, DoInvalidate(matching, fault)));
      && (fault.InvalidatesFine? ==> k !in c'.memory)
      && (!fault.InvalidatesFine? ==> c'.memory == c.memory)
      && (if k in matching && (fault.DeletionFails? ==> k in fault.done) then k !in c'.redis
          else Lookup(c'.redis, k) == Lookup(c.redis, k))
  {
  }

  // ---------- keys written to Redis only ----------

  /** Some read of the key, not before the given time, found the value live in Redis. */
  ghost predicate RecentlyCurrent(steps: seq<Step>, key: string, value: string, since: int) {
    exists i :: 0 <= i < |steps| && steps[i].at >= since && CurrentAt(steps, i, key, value)
  }

  ghost predicate CurrentAt(steps: seq<Step>, i: nat, key: string, value: string)
    requires i < |steps|
  {
    && steps[i].op.DoGet? && steps[i].op.key == key
    && Live(After(steps[..i]).redis, key, steps[i].at) == Some(value)
  }

  lemma {:induction false} MemoryIsPromotedCopy(steps: seq<Step>, key: string)
    requires WritesIn(steps, key, TO_REDIS)
    ensures var c := After(steps);
      key in c.memory ==>
        RecentlyCurrent(steps, key, c.memory[key].value, c.memory[key].expiresAt - MEMORY_TTL * 1000)
  {
    if steps != [] {
      var n := |steps| - 1;
      var past := steps[..n];
      MemoryIsPromotedCopy(past, key);
      var before, after := After(past), After(steps);
      if key in after.memory {
        if key in before.memory && after.memory[key] == before.memory[key] {
          var i :| 0 <= i < |past| && past[i].at >= before.memory[key].expiresAt - MEMORY_TTL * 1000
                   && CurrentAt(past, i, key, before.memory[key].value);
          assert past[..i] == steps[..i];
          assert CurrentAt(steps, i, key, after.memory[key].value);
        } else {
          assert CurrentAt(steps, n, key, after.memory[key].value);
        }
      }
    }
  }

  /** Bounded staleness: every value read is live in Redis now, or was when some read of the
      run took place less than 60 seconds ago. */
  lemma StalenessBound(steps: seq<Step>, key: string, read: Read, now: int)
    requires WritesIn(steps, key, TO_REDIS)
    ensures var found := GetIn(After(steps), key, read, now).1;
      found.Some? ==>
        || Live(After(steps).redis, key, now) == found
        || RecentlyCurrent(steps, key, found.value, now - MEMORY_TTL * 1000 + 1)
  {
    MemoryIsPromotedCopy(steps, key);
    var c := After(steps);
    if key in c.memory && now < c.memory[key].expiresAt {
      var i :| 0 <= i < |steps| && steps[i].at >= c.memory[key].expiresAt - MEMORY_TTL * 1000
               && CurrentAt(steps, i, key, c.memory[key].value);
      assert steps[i].at >= now - MEMORY_TTL * 1000 + 1;
    }
  }

  /** Reads at ordinary priority return the last value set or nothing, whatever is rejected
      besides the permitted writes. */
  ghost predicate OrdinarilyCoherent(key: string, permitted: set<Write>) {
    forall steps, fault, now :: Ordered(steps) && WritesIn(steps, key, permitted) ==>
      GetIn(After(steps), key, Read(false, false, fault), now).1 in {None, LastSet(steps, key)}
  }

  lemma {:induction false} RedisHoldsLastSet(steps: seq<Step>, key: string, permitted: set<Write>, redis: bool)
    requires WritesIn(steps, key, permitted) && forall w :: w in permitted ==> ReachesRedis(w.0, w.1) == redis
    ensures key in After(steps).redis ==> redis && Some(After(steps).redis[key].value) == LastSet(steps, key)
  {
    if steps != [] {
      var n := |steps| - 1;
      RedisHoldsLastSet(steps[..n], key, permitted, redis);
      if steps[n].op.DoSet? && steps[n].op.key == key {
        assert (steps[n].op.level, steps[n].op.fault) in permitted;
      }
    }
  }

  /** Exactly when all permitted writes reach Redis, or none does: ordinary reads never see the
      copies in memory. */
  lemma OrdinaryReadsExactly(key: string, permitted: set<Write>)
    ensures OrdinarilyCoherent(key, permitted)
            <==> forall v, w :: v in permitted && w in permitted ==> ReachesRedis(v.0, v.1) == ReachesRedis(w.0, w.1)
  {
    if v, w :| v in permitted && w in permitted && ReachesRedis(v.0, v.1) && !ReachesRedis(w.0, w.1) {
      FirstWriteStays(key, v, w);
      assert WritesIn(WriteTwice(key, v, w), key, permitted);
    } else {
      var redis := exists w :: w in permitted && ReachesRedis(w.0, w.1);
      forall steps, fault, now | Ordered(steps) && WritesIn(steps, key, permitted)
        ensures GetIn(After(steps), key, Read(false, false, fault), now).1 in {None, LastSet(steps, key)}
      {
        RedisHoldsLastSet(steps, key, permitted, redis);
      }
    }
  }

  lemma FirstWriteStays(key: string, v: Write, w: Write)
    requires ReachesRedis(v.0, v.1) && !ReachesRedis(w.0, w.1)
    ensures Ordered(WriteTwice(key, v, w)) && WritesIn(WriteTwice(key, v, w), key, {v, w})
    ensures LastSet(WriteTwice(key, v, w), key) == Some("2")
    ensures GetIn(After(WriteTwice(key, v, w)), key, Read(false, false, ReadsFine), 0).1 == Some("1")
  {
    var steps := WriteTwice(key, v, w);
    assert steps[..1][..0] == [];
    assert After(steps[..1]) == SetIn(EMPTY, key, "1", None, v.0, v.1, 0);
  }

  /** The bound is tight: an overwritten value is still served 59.999 seconds later. */
  lemma StalenessBoundIsReached(key: string)
    ensures var steps, read := PromoteThenOverwrite(key, (REDIS, NoFault)), Read(true, false, ReadsFine);
      && WritesIn(steps, key, TO_REDIS)
      && GetIn(After(steps), key, read, MEMORY_TTL * 1000 - 1).1 == Some("1")
      && GetIn(After(steps), key, read, MEMORY_TTL * 1000).1 == Some("2")
  {
    AfterPromotion(key, (REDIS, NoFault));
  }

  // ---------- the service ----------

  class CacheService {
    var memory: map<string, Entry>
    var redis: map<string, Entry>

    constructor ()
      ensures Contents() == EMPTY
    {
      memory, redis := map[], map[];
    }

    ghost function Contents(): Cache
      reads this
    {
      Cache(memory, redis)
    }

    method Get(key: string, read: Read, now: int) returns (found: Option<string>)
      modifies this
      ensures (Contents(), found) == GetIn(old(Contents()), key, read, now)
    {
      if read.high || read.fromMemory {
        if read.fault.MemoryReadFails? { return None; }
        found := Live(memory, key, now);
        if found.Some? { return; }
      }
      if read.fault.RedisReadFails? { return None; }
      found := Live(redis, key, now);
      if found.Some? && read.high {
        if read.fault.PromotionFails? { return None; }
        memory := memory[key := Entry(found.value, now + MEMORY_TTL * 1000)];
      }
    }

    method Set(key: string, value: string, ttl: Option<nat>, level: Level, fault: Faults, now: int)
      modifies this
      ensures Contents() == SetIn(old(Contents()), key, value, ttl, level, fault, now)
    {
      if level == MEMORY || level == BOTH {
        if fault == MemoryFault { return; }
        memory := memory[key := Entry(value, now + Ttl(ttl, MEMORY_TTL) * 1000)];
      }
      if level == REDIS || level == BOTH {
        if fault == RedisFault { return; }
        redis := redis[key := Entry(value, now + Ttl(ttl, REDIS_TTL) * 1000)];
      }
    }

    /** Five minutes, in Redis only. */
    method CachePortfolioData(key: string, value: string, fault: Faults, now: int)
      modifies this
      ensures Contents() == SetIn(old(Contents()), key, value, Some(300), REDIS, fault, now)
    {
      Set(key, value, Some(300), REDIS, fault, now);
    }

    /** The count of keys that Redis dropped, or 0 when something is rejected. */
    method Invalidate(matching: set<string>, fault: InvalidateFault) returns (count: nat)
      modifies this
      ensures Contents() == InvalidateIn(old(Contents()), matching, fault)
      ensures count == if fault.InvalidatesFine? then |old(redis).Keys * matching| else 0
    {
      if fault.DeletionFails? {
        redis := redis - matching * fault.done;
        return 0;
      }
      count := |redis.Keys * matching|;
      redis := redis - matching;
      if fault.ResetFails? {
        return 0;
      }
      memory := map[];
    }

    method InvalidatePattern(matching: set<string>)
      modifies this
      ensures Contents() == Drop(old(Contents()), matching)
    {
      memory := memory - matching;
      redis := redis - matching;
    }
  }
}
