/** Block-range synchronisation of contract events, src/blockchain/services/event-listener.service.ts.
    The chain is a fixed function from address and block to events; fetches, saves and the
    final update may fail in any combination. */
module EventListener {
  import opened Basics

  /** An empty name stands for a missing one. */
  datatype Event = Event(keys: seq<string>, data: seq<string>, name: string,
                         block: nat, blockHash: string, transactionHash: string)

  type Chain = (string, int) -> seq<Event>

  /** lastSyncedBlock 0 and a missing lastSyncedBlock are the same to the code: both falsy. */
  datatype Contract = Contract(id: string, address: string, isActive: bool, monitored: seq<string>, lastSynced: nat)

  datatype Row = Row(contractId: string, name: string, keys: seq<string>, data: seq<string>,
                     block: nat, blockHash: string, transactionHash: string)

  const BATCH_SIZE := 50
  const FIRST_SYNC_DEPTH := 100

  // ---------- which events become which rows ----------

  function ParseEventName(e: Event): Option<string> {
    if e.keys == [] then None else Some(if e.name == "" then "UnknownEvent" else e.name)
  }

  predicate Wanted(c: Contract, e: Event) {
    c.monitored == [] || (ParseEventName(e).Some? && ParseEventName(e).value in c.monitored)
  }

  function RowOf(c: Contract, e: Event): Row {
    var name := ParseEventName(e);
    Row(c.id, if name.Some? then name.value else "UnknownEvent",
        e.keys, e.data, e.block, e.blockHash, e.transactionHash)
  }

  function RowsOfOne(c: Contract, e: Event): multiset<Row> {
    if Wanted(c, e) then multiset{RowOf(c, e)} else multiset{}
  }

  /** The rows of the wanted events among those given. */
  function RowsOf(c: Contract, events: seq<Event>): multiset<Row> {
    if events == [] then multiset{}
    else RowsOf(c, events[..|events| - 1]) + RowsOfOne(c, events[|events| - 1])
  }

  lemma {:induction false} RowsOfConcat(c: Contract, a: seq<Event>, b: seq<Event>)
    ensures RowsOf(c, a + b) == RowsOf(c, a) + RowsOf(c, b)
  {
    hide RowsOfOne;
    if b == [] {
      assert a + b == a;
    } else {
      var n := |b| - 1;
      RowsOfConcat(c, a, b[..n]);
      var all := a + b;
      assert all[..|all| - 1] == a + b[..n] && all[|all| - 1] == b[n];
      assert RowsOf(c, all) == RowsOf(c, a + b[..n]) + RowsOfOne(c, b[n]);
    }
  }

  /** The events of blocks from..to, in order: a complete answer of getEvents. */
  function EventsIn(chain: Chain, address: string, from: int, upto: int): seq<Event>
    decreases upto - from
  {
    if upto < from then [] else EventsIn(chain, address, from, upto - 1) + chain(address, upto)
  }

  /** What the event table should hold for blocks from..to, each matching event once. */
  function Expected(chain: Chain, c: Contract, from: int, upto: int): multiset<Row>
    decreases upto - from
  {
    if upto < from then multiset{} else Expected(chain, c, from, upto - 1) + RowsOf(c, chain(c.address, upto))
  }

  lemma {:induction false} FetchedIsExpected(chain: Chain, c: Contract, from: int, upto: int)
    ensures RowsOf(c, EventsIn(chain, c.address, from, upto)) == Expected(chain, c, from, upto)
    decreases upto - from
  {
    if upto >= from {
      FetchedIsExpected(chain, c, from, upto - 1);
      RowsOfConcat(c, EventsIn(chain, c.address, from, upto - 1), chain(c.address, upto));
    }
  }

  lemma {:induction false} ExpectedJoins(chain: Chain, c: Contract, from: int, mid: int, upto: int)
    requires from <= mid + 1 && mid <= upto
    ensures Expected(chain, c, from, upto) == Expected(chain, c, from, mid) + Expected(chain, c, mid + 1, upto)
    decreases upto - mid
  {
    hide RowsOf;
    if mid < upto {
      ExpectedJoins(chain, c, from, mid, upto - 1);
      Associates(Expected(chain, c, from, mid), Expected(chain, c, mid + 1, upto - 1),
                 RowsOf(c, chain(c.address, upto)));
    }
  }

  lemma Associates(a: multiset<Row>, b: multiset<Row>, c: multiset<Row>)
    ensures (a + b) + c == a + (b + c)
  {
  }

  // ---------- batches ----------

  datatype Range = Range(first: int, last: int)

  function Batches(from: int, latest: int): seq<Range>
    decreases latest + 1 - from
  {
    if from > latest then []
    else
      var upto := Min(from + BATCH_SIZE - 1, latest);
      [Range(from, upto)] + Batches(upto + 1, latest)
  }

  /** The ranges are non-empty, at most BATCH_SIZE long, and each starts right after the one
      before; the first starts at `from`, the last ends at `latest`. */
  ghost predicate Tiles(batches: seq<Range>, from: int, latest: int) {
    && batches != [] && batches[0].first == from && batches[|batches| - 1].last == latest
    && (forall i :: 0 <= i < |batches| ==> batches[i].first <= batches[i].last < batches[i].first + BATCH_SIZE)
    && (forall i :: 0 < i < |batches| ==> batches[i].first == batches[i - 1].last + 1)
  }

  lemma {:induction false} BatchesTile(from: int, latest: int)
    requires from <= latest
    ensures Tiles(Batches(from, latest), from, latest)
    decreases latest - from
  {
    hide Tiles;
    var upto := Min(from + BATCH_SIZE - 1, latest);
    if upto < latest {
      BatchesTile(upto + 1, latest);
      OneMoreTiles(Range(from, upto), Batches(upto + 1, latest), latest);
    } else {
      assert Batches(upto + 1, latest) == [];
      OneTiles(from, upto);
    }
  }

  lemma OneTiles(from: int, upto: int)
    requires from <= upto < from + BATCH_SIZE
    ensures Tiles([Range(from, upto)] + [], from, upto)
  {
  }

  lemma OneMoreTiles(r: Range, rest: seq<Range>, latest: int)
    requires r.first <= r.last < r.first + BATCH_SIZE && Tiles(rest, r.last + 1, latest)
    ensures Tiles([r] + rest, r.first, latest)
  {
    var all := [r] + rest;
    assert forall i :: 0 < i < |all| ==> all[i] == rest[i - 1];
  }

  lemma {:induction false} BatchesOrdered(from: int, latest: int, i: nat, j: nat)
    requires from <= latest && i < j < |Batches(from, latest)|
    ensures Batches(from, latest)[i].last < Batches(from, latest)[j].first
  {
    BatchesTile(from, latest);
    if i < j - 1 {
      BatchesOrdered(from, latest, i, j - 1);
    }
  }

  /** The batch a block belongs to. */
  function BatchOf(from: int, block: int): nat
    requires from <= block
  {
    (block - from) / BATCH_SIZE
  }

  /** Every block of the range is in its batch and in no other. */
  lemma {:induction false} BatchesCoverOnce(from: int, latest: int, block: int, i: nat)
    requires from <= block <= latest && i < |Batches(from, latest)|
    ensures var batches := Batches(from, latest);
      batches[i].first <= block <= batches[i].last <==> i == BatchOf(from, block)
    decreases latest - from
  {
    var upto := Min(from + BATCH_SIZE - 1, latest);
    BatchesTile(from, latest);
    if i == 0 {
    } else if block <= upto {
      BatchesOrdered(from, latest, 0, i);
    } else {
      BatchesCoverOnce(upto + 1, latest, block, i - 1);
      assert BatchOf(upto + 1, block) == BatchOf(from, block) - 1;
    }
  }

  // ---------- one synchronisation ----------

  /** What goes wrong in one attempt: fetches and saves by batch index, and the last update. */
  datatype Faults = Faults(fetches: set<nat>, saves: set<nat>, update: bool)

  /** A contract's row together with the event rows that carry its id. */
  datatype State = State(contract: Contract, rows: multiset<Row>)

  function FirstBlock(c: Contract, latest: nat): nat {
    if c.lastSynced != 0 then c.lastSynced + 1 else Max(0, latest - FIRST_SYNC_DEPTH)
  }

  function RangeRows(chain: Chain, c: Contract, r: Range): multiset<Row> {
    RowsOf(c, EventsIn(chain, c.address, r.first, r.last))
  }

  /** The fetch loop stops at the first fetch that fails. */
  function Fetched(faults: Faults, n: nat): (k: nat)
    ensures k <= n
    ensures k == n <==> forall i :: 0 <= i < n ==> i !in faults.fetches
  {
    if n == 0 then 0
    else
      var k := Fetched(faults, n - 1);
      if k == n - 1 && n - 1 !in faults.fetches then n else k
  }

  /** A save is started for every non-empty batch; each succeeds or fails on its own. */
  function Saved(chain: Chain, c: Contract, batches: seq<Range>, k: nat, faults: Faults): multiset<Row>
    requires k <= |batches|
  {
    if k == 0 then multiset{}
    else
      Saved(chain, c, batches, k - 1, faults)
      + (if k - 1 in faults.saves then multiset{} else RangeRows(chain, c, batches[k - 1]))
  }

  ghost predicate SavesSucceed(chain: Chain, c: Contract, batches: seq<Range>, k: nat, faults: Faults)
    requires k <= |batches|
  {
    forall i :: 0 <= i < k && i in faults.saves ==> RangeRows(chain, c, batches[i]) == multiset{}
  }

  /** The rows an attempt adds, whether or not it goes through. */
  function Added(chain: Chain, c: Contract, latest: nat, faults: Faults): multiset<Row> {
    var batches := Batches(FirstBlock(c, latest), latest);
    Saved(chain, c, batches, Fetched(faults, |batches|), faults)
  }

  ghost predicate Succeeds(chain: Chain, c: Contract, latest: nat, faults: Faults) {
    var batches := Batches(FirstBlock(c, latest), latest);
    batches != [] ==>
      && Fetched(faults, |batches|) == |batches|
      && SavesSucceed(chain, c, batches, |batches|, faults)
      && !faults.update
  }

  ghost function Sync(chain: Chain, s: State, latest: nat, faults: Faults): State {
    var c := s.contract;
    State(if FirstBlock(c, latest) <= latest && Succeeds(chain, c, latest, faults) then c.(lastSynced := latest) else c,
          s.rows + Added(chain, c, latest, faults))
  }

  lemma {:induction false} AllSaved(chain: Chain, c: Contract, from: int, latest: int, k: nat, faults: Faults)
    requires from <= latest && k <= |Batches(from, latest)|
    requires SavesSucceed(chain, c, Batches(from, latest), k, faults)
    ensures Saved(chain, c, Batches(from, latest), k, faults)
            == Expected(chain, c, from, if k == 0 then from - 1 else Batches(from, latest)[k - 1].last)
  {
    hide Batches, Expected, EventsIn, RowsOf;
    var batches := Batches(from, latest);
    BatchesTile(from, latest);
    if k == 0 {
      ExpectedNothing(chain, c, from);
    } else {
      AllSaved(chain, c, from, latest, k - 1, faults);
      var r := batches[k - 1];
      FetchedIsExpected(chain, c, r.first, r.last);
      if k - 1 > 0 {
        BatchesOrdered(from, latest, 0, k - 1);
      }
      ExpectedJoins(chain, c, from, r.first - 1, r.last);
    }
  }

  lemma ExpectedNothing(chain: Chain, c: Contract, from: int)
    ensures Expected(chain, c, from, from - 1) == multiset{}
  {
  }

  /** A synchronisation that goes through adds every matching event of its range once. */
  lemma SuccessAddsRange(chain: Chain, c: Contract, latest: nat, faults: Faults)
    requires FirstBlock(c, latest) <= latest && Succeeds(chain, c, latest, faults)
    ensures Added(chain, c, latest, faults) == Expected(chain, c, FirstBlock(c, latest), latest)
  {
    var from := FirstBlock(c, latest);
    BatchesTile(from, latest);
    AllSaved(chain, c, from, latest, |Batches(from, latest)|, faults);
  }

  // ---------- runs ----------

  datatype Attempt = Attempt(latest: nat, faults: Faults)

  /** A contract after a run of polls and manual syncs; both do the same to it. */
  ghost function Run(chain: Chain, c: Contract, attempts: seq<Attempt>): State {
    if attempts == [] then State(c, multiset{})
    else
      var n := |attempts| - 1;
      Sync(chain, Run(chain, c, attempts[..n]), attempts[n].latest, attempts[n].faults)
  }

  /** The attempt moved lastSyncedBlock. */
  ghost predicate Advances(chain: Chain, c: Contract, attempts: seq<Attempt>, i: nat)
    requires i < |attempts|
  {
    Run(chain, c, attempts[..i + 1]).contract.lastSynced != Run(chain, c, attempts[..i]).contract.lastSynced
  }

  /** The block at which the stored history of a new contract begins: the first block of the
      attempt that first moved lastSyncedBlock. */
  ghost function Origin(chain: Chain, c: Contract, attempts: seq<Attempt>): Option<int> {
    if attempts == [] then None
    else
      var n := |attempts| - 1;
      var earlier := Origin(chain, c, attempts[..n]);
      if earlier.Some? then earlier
      else if Advances(chain, c, attempts, n)
      then Some(FirstBlock(Run(chain, c, attempts[..n]).contract, attempts[n].latest))
      else None
  }

  /** Each matching event from the origin to lastSyncedBlock, once. */
  ghost function Due(chain: Chain, c: Contract, attempts: seq<Attempt>): multiset<Row> {
    var origin := Origin(chain, c, attempts);
    if origin.None? then multiset{}
    else Expected(chain, c, origin.value, Run(chain, c, attempts).contract.lastSynced)
  }

  /** The rows added by attempts that did not move lastSyncedBlock. */
  ghost function Spilled(chain: Chain, c: Contract, attempts: seq<Attempt>): multiset<Row> {
    if attempts == [] then multiset{}
    else
      var n := |attempts| - 1;
      Spilled(chain, c, attempts[..n])
      + (if Advances(chain, c, attempts, n) then multiset{}
         else Added(chain, Run(chain, c, attempts[..n]).contract, attempts[n].latest, attempts[n].faults))
  }

  lemma SameContract(chain: Chain, c: Contract, d: Contract, from: int, upto: int)
    requires d == c.(lastSynced := d.lastSynced)
    ensures Expected(chain, d, from, upto) == Expected(chain, c, from, upto)
    decreases upto - from
  {
    if upto >= from {
      SameContract(chain, c, d, from, upto - 1);
      SameRows(c, d, chain(c.address, upto));
    }
  }

  lemma SameRows(c: Contract, d: Contract, events: seq<Event>)
    requires d == c.(lastSynced := d.lastSynced)
    ensures RowsOf(d, events) == RowsOf(c, events)
  {
    if events != [] {
      SameRows(c, d, events[..|events| - 1]);
    }
  }

  /** Conservation, for every run of a new contract with any failures: the table holds each
      matching event from the origin to lastSyncedBlock once, plus what attempts spilled that
      did not get through. So nothing is lost, and nothing is stored twice without a failure. */
  lemma {:induction false} EveryRowAccounted(chain: Chain, c: Contract, attempts: seq<Attempt>)
    requires c.lastSynced == 0
    ensures var s := Run(chain, c, attempts);
      && s.contract == c.(lastSynced := s.contract.lastSynced)
      && (Origin(chain, c, attempts).Some? <==> s.contract.lastSynced != 0)
      && s.rows == Spilled(chain, c, attempts) + Due(chain, c, attempts)
      && (Origin(chain, c, attempts).Some? ==> Origin(chain, c, attempts).value <= s.contract.lastSynced)
  {
    hide Expected, Added, Succeeds;
    if attempts != [] {
      var n := |attempts| - 1;
      var past := attempts[..n];
      assert attempts[..n + 1] == attempts;
      EveryRowAccounted(chain, c, past);
      var before, after := Run(chain, c, past), Run(chain, c, attempts);
      var latest, faults := attempts[n].latest, attempts[n].faults;
      if Advances(chain, c, attempts, n) {
        var from := FirstBlock(before.contract, latest);
        SuccessAddsRange(chain, before.contract, latest, faults);
        SameContract(chain, c, before.contract, from, latest);
        if before.contract.lastSynced != 0 {
          ExpectedJoins(chain, c, Origin(chain, c, past).value, before.contract.lastSynced, latest);
        }
      }
    }
  }

  /** At least once, whatever failed. */
  lemma StoredAtLeastOnce(chain: Chain, c: Contract, attempts: seq<Attempt>)
    requires c.lastSynced == 0 && Origin(chain, c, attempts).Some?
    ensures var s := Run(chain, c, attempts);
      Expected(chain, c, Origin(chain, c, attempts).value, s.contract.lastSynced) <= s.rows
  {
    EveryRowAccounted(chain, c, attempts);
  }

  lemma SyncMovesForward(chain: Chain, s: State, latest: nat, faults: Faults)
    ensures var s' := Sync(chain, s, latest, faults);
      && s'.contract.lastSynced in {s.contract.lastSynced, latest}
      && s'.contract.lastSynced >= s.contract.lastSynced
      && s.rows <= s'.rows
  {
  }

  /** Over any run lastSyncedBlock never goes back and no stored row disappears. */
  lemma {:induction false} NeverGoesBack(chain: Chain, c: Contract, attempts: seq<Attempt>, i: nat)
    requires i <= |attempts|
    ensures Run(chain, c, attempts[..i]).contract.lastSynced <= Run(chain, c, attempts).contract.lastSynced
    ensures Run(chain, c, attempts[..i]).rows <= Run(chain, c, attempts).rows
  {
    hide Sync;
    var n := |attempts| - 1;
    if i <= n {
      NeverGoesBack(chain, c, attempts[..n], i);
      assert attempts[..n][..i] == attempts[..i];
      SyncMovesForward(chain, Run(chain, c, attempts[..n]), attempts[n].latest, attempts[n].faults);
    } else {
      assert attempts[..i] == attempts;
    }
  }

  ghost predicate FaultFree(chain: Chain, c: Contract, attempts: seq<Attempt>) {
    forall i :: 0 <= i < |attempts| ==>
      Succeeds(chain, Run(chain, c, attempts[..i]).contract, attempts[i].latest, attempts[i].faults)
  }

  lemma FaultFreePrefix(chain: Chain, c: Contract, attempts: seq<Attempt>, n: nat)
    requires FaultFree(chain, c, attempts) && n <= |attempts|
    ensures FaultFree(chain, c, attempts[..n])
  {
    hide Succeeds, Run;
    assert forall i :: 0 <= i < n ==> attempts[..n][i] == attempts[i] && attempts[..n][..i] == attempts[..i];
  }

  /** From its first height on, if that is not 0, a contract counts as synchronised. */
  lemma {:induction false} StaysSynchronised(chain: Chain, c: Contract, attempts: seq<Attempt>)
    requires c.lastSynced == 0 && attempts != [] && attempts[0].latest >= 1 && FaultFree(chain, c, attempts)
    ensures Run(chain, c, attempts).contract.lastSynced != 0
    ensures Origin(chain, c, attempts) == Some(FirstBlock(c, attempts[0].latest))
  {
    hide Succeeds, Added;
    var n := |attempts| - 1;
    assert attempts[..n + 1] == attempts;
    if n > 0 {
      FaultFreePrefix(chain, c, attempts, n);
      StaysSynchronised(chain, c, attempts[..n]);
      SyncMovesForward(chain, Run(chain, c, attempts[..n]), attempts[n].latest, attempts[n].faults);
    } else {
      assert attempts[..0] == [];
      assert Succeeds(chain, Run(chain, c, attempts[..0]).contract, attempts[0].latest, attempts[0].faults);
    }
  }

  lemma {:induction false} FaultFreeSpillsNothing(chain: Chain, c: Contract, attempts: seq<Attempt>)
    requires c.lastSynced == 0 && attempts != [] && attempts[0].latest >= 1 && FaultFree(chain, c, attempts)
    ensures Spilled(chain, c, attempts) == multiset{}
  {
    hide Succeeds;
    var n := |attempts| - 1;
    var past := attempts[..n];
    assert attempts[..n + 1] == attempts;
    assert Succeeds(chain, Run(chain, c, past).contract, attempts[n].latest, attempts[n].faults);
    if n > 0 {
      FaultFreePrefix(chain, c, attempts, n);
      FaultFreeSpillsNothing(chain, c, past);
      StaysSynchronised(chain, c, past);
    } else {
      assert past == [];
    }
    NothingNewAddsNothing(chain, Run(chain, c, past).contract, attempts[n].latest, attempts[n].faults);
  }

  lemma NothingNewAddsNothing(chain: Chain, c: Contract, latest: nat, faults: Faults)
    ensures FirstBlock(c, latest) > latest ==> Added(chain, c, latest, faults) == multiset{}
  {
    if FirstBlock(c, latest) > latest {
      assert Batches(FirstBlock(c, latest), latest) == [];
    }
  }

  /** Exactly once when nothing failed and the first height was not 0. */
  lemma StoredExactlyOnce(chain: Chain, c: Contract, attempts: seq<Attempt>)
    requires c.lastSynced == 0 && attempts != [] && attempts[0].latest >= 1 && FaultFree(chain, c, attempts)
    ensures Origin(chain, c, attempts) == Some(FirstBlock(c, attempts[0].latest))
    ensures var s := Run(chain, c, attempts);
      s.rows == Expected(chain, c, FirstBlock(c, attempts[0].latest), s.contract.lastSynced)
  {
    EveryRowAccounted(chain, c, attempts);
    FaultFreeSpillsNothing(chain, c, attempts);
    StaysSynchronised(chain, c, attempts);
  }

  // ---------- which heights store an event twice ----------

  const NO_FAULTS := Faults({}, {}, false)

  /** Fault-free attempts at the given heights. */
  function Calm(heights: seq<nat>): (attempts: seq<Attempt>)
    ensures |attempts| == |heights|
    ensures forall i :: 0 <= i < |heights| ==> attempts[i] == Attempt(heights[i], NO_FAULTS)
  {
    seq(|heights|, i requires 0 <= i < |heights| => Attempt(heights[i], NO_FAULTS))
  }

  lemma NoFaultsSucceed(chain: Chain, c: Contract, latest: nat)
    ensures Succeeds(chain, c, latest, NO_FAULTS)
  {
  }

  lemma CalmIsFaultFree(chain: Chain, c: Contract, heights: seq<nat>)
    ensures FaultFree(chain, c, Calm(heights))
  {
    hide Succeeds, Run;
    forall d: Contract, latest: nat
      ensures Succeeds(chain, d, latest, NO_FAULTS)
    {
      NoFaultsSucceed(chain, d, latest);
    }
  }

  function Top(heights: seq<nat>): nat {
    if heights == [] then 0 else Max(Top(heights[..|heights| - 1]), heights[|heights| - 1])
  }

  lemma {:induction false} NeverAboveTop(chain: Chain, c: Contract, heights: seq<nat>)
    requires c.lastSynced == 0
    ensures Run(chain, c, Calm(heights)).contract.lastSynced <= Top(heights)
  {
    hide Sync;
    if heights != [] {
      var n := |heights| - 1;
      assert Calm(heights)[..n] == Calm(heights[..n]);
      NeverAboveTop(chain, c, heights[..n]);
      SyncMovesForward(chain, Run(chain, c, Calm(heights[..n])), heights[n], NO_FAULTS);
    }
  }

  /** The table holds no event more often than the chain does. */
  ghost predicate NothingTwice(chain: Chain, c: Contract, heights: seq<nat>) {
    Run(chain, c, Calm(heights)).rows <= Expected(chain, c, 0, Top(heights))
  }

  lemma PartOfChain(chain: Chain, c: Contract, from: nat, upto: nat, top: nat)
    requires from <= upto + 1 && upto <= top
    ensures Expected(chain, c, from, upto) <= Expected(chain, c, 0, top)
    ensures from >= 1 ==> Expected(chain, c, 0, 0) + Expected(chain, c, from, upto) <= Expected(chain, c, 0, top)
  {
    hide Expected;
    ExpectedJoins(chain, c, 0, upto, top);
    ExpectedJoins(chain, c, 0, from - 1, upto);
    if from >= 1 {
      ExpectedJoins(chain, c, 0, 0, from - 1);
    }
  }

  /** A synchronisation at height 0 stores block 0 and leaves the contract as it was. */
  lemma HeightZero(chain: Chain, c: Contract)
    requires c.lastSynced == 0
    ensures Sync(chain, State(c, multiset{}), 0, NO_FAULTS) == State(c, Expected(chain, c, 0, 0))
  {
    hide Expected, Added, Succeeds;
    NoFaultsSucceed(chain, c, 0);
    SuccessAddsRange(chain, c, 0, NO_FAULTS);
  }

  /** A run that starts at height 0 goes on as if it started after that. */
  lemma {:induction false} SkipsHeightZero(chain: Chain, c: Contract, rest: seq<nat>)
    requires c.lastSynced == 0
    ensures var all, tail := Run(chain, c, Calm([0] + rest)), Run(chain, c, Calm(rest));
      all.contract == tail.contract && all.rows == Expected(chain, c, 0, 0) + tail.rows
  {
    hide Expected;
    if rest == [] {
      HeightZero(chain, c);
      assert Calm([0] + rest)[..0] == [];
      assert Run(chain, c, []) == State(c, multiset{});
    } else {
      var n := |rest| - 1;
      SkipsHeightZero(chain, c, rest[..n]);
      assert Calm([0] + rest)[..n + 1] == Calm([0] + rest[..n]);
      assert Calm(rest)[..n] == Calm(rest[..n]);
    }
  }

  lemma OnceFromFirstHeight(chain: Chain, c: Contract, heights: seq<nat>)
    requires c.lastSynced == 0 && heights != [] && heights[0] >= 1
    ensures NothingTwice(chain, c, heights)
    ensures heights[0] > FIRST_SYNC_DEPTH ==>
      Expected(chain, c, 0, 0) + Run(chain, c, Calm(heights)).rows <= Expected(chain, c, 0, Top(heights))
  {
    hide Expected, Run;
    CalmIsFaultFree(chain, c, heights);
    StoredExactlyOnce(chain, c, Calm(heights));
    EveryRowAccounted(chain, c, Calm(heights));
    NeverAboveTop(chain, c, heights);
    PartOfChain(chain, c, FirstBlock(c, heights[0]), Run(chain, c, Calm(heights)).contract.lastSynced, Top(heights));
  }

  /** The heights that make a new contract store block 0 and then come back to it. */
  predicate ComesBackToZero(heights: seq<nat>) {
    |heights| >= 2 && heights[0] == 0 && heights[1] <= FIRST_SYNC_DEPTH
  }

  lemma {:induction false} TopOfTail(heights: seq<nat>)
    requires heights != [] && heights[0] == 0
    ensures Top(heights[1..]) == Top(heights)
  {
    if |heights| > 1 {
      var n := |heights| - 1;
      TopOfTail(heights[..n]);
      assert heights[1..][..n - 1] == heights[..n][1..];
    } else {
      assert heights[..0] == [];
    }
  }

  lemma OthersStoreOnce(chain: Chain, c: Contract, heights: seq<nat>)
    requires c.lastSynced == 0 && !ComesBackToZero(heights)
    ensures NothingTwice(chain, c, heights)
  {
    hide Expected, Run;
    if heights == [] {
      NothingStored(chain, c);
    } else if heights[0] >= 1 {
      OnceFromFirstHeight(chain, c, heights);
    } else {
      var rest := heights[1..];
      assert heights == [0] + rest;
      SkipsHeightZero(chain, c, rest);
      TopOfTail(heights);
      if rest == [] {
        NothingStored(chain, c);
        PartOfChain(chain, c, 0, 0, Top(heights));
      } else {
        OnceFromFirstHeight(chain, c, rest);
      }
    }
  }

  lemma NothingStored(chain: Chain, c: Contract)
    ensures Run(chain, c, Calm([])).rows == multiset{} && NothingTwice(chain, c, [])
  {
  }

  const E0 := Event([], [], "", 0, "", "")

  /** A chain whose only event is in block 0, and a contract that wants every event. */
  const ONE_EVENT: Chain := (address, block) => if block == 0 then [E0] else []
  const ANY := Contract("", "", true, [], 0)

  lemma {:induction false} OneEventExpected(upto: nat)
    ensures Expected(ONE_EVENT, ANY, 0, upto) == multiset{RowOf(ANY, E0)}
    decreases upto
  {
    if upto > 0 {
      OneEventExpected(upto - 1);
      assert RowsOf(ANY, []) == multiset{};
    } else {
      assert [E0][..0] == [];
      assert ONE_EVENT(ANY.address, 0) == [E0];
      assert RowsOf(ANY, [E0]) == RowsOf(ANY, []) + RowsOfOne(ANY, E0) == multiset{RowOf(ANY, E0)};
      assert Expected(ONE_EVENT, ANY, 0, -1) == multiset{};
    }
  }

  lemma StoredAgain(heights: seq<nat>)
    requires ComesBackToZero(heights)
    ensures !NothingTwice(ONE_EVENT, ANY, heights)
  {
    hide Expected, RowsOf, Added, Succeeds;
    var row, two := RowOf(ANY, E0), heights[..2];
    assert two == [0, heights[1]];
    assert Calm(two)[..1] == Calm([0]) && Calm([0])[..0] == [];
    HeightZero(ONE_EVENT, ANY);
    NoFaultsSucceed(ONE_EVENT, ANY, heights[1]);
    SuccessAddsRange(ONE_EVENT, ANY, heights[1], NO_FAULTS);
    OneEventExpected(0);
    OneEventExpected(heights[1]);
    assert Run(ONE_EVENT, ANY, Calm([0])) == State(ANY, multiset{row});
    assert Run(ONE_EVENT, ANY, Calm(two)).rows == multiset{row, row};
    assert Calm(heights)[..2] == Calm(two);
    NeverGoesBack(ONE_EVENT, ANY, Calm(heights), 2);
    OneEventExpected(Top(heights));
    assert Run(ONE_EVENT, ANY, Calm(heights)).rows[row] >= 2;
  }

  /** Fault-free runs of a new contract at these heights store no event twice, on any chain,
      exactly unless the first height is 0 and the second at most the first depth: lastSyncedBlock
      0 reads as never synchronised. */
  lemma StoredOnceExactly(heights: seq<nat>)
    ensures (forall chain: Chain, c: Contract :: c.lastSynced == 0 ==> NothingTwice(chain, c, heights))
            <==> !ComesBackToZero(heights)
  {
    hide NothingTwice, ComesBackToZero;
    if ComesBackToZero(heights) {
      StoredAgain(heights);
      assert ANY.lastSynced == 0;
    } else {
      forall chain: Chain, c: Contract | c.lastSynced == 0
        ensures NothingTwice(chain, c, heights)
      {
        OthersStoreOnce(chain, c, heights);
      }
    }
  }

  /** They store exactly what is due, each event from the origin to lastSyncedBlock once, if and
      only if the first height is not 0. */
  lemma StoredAsDueExactly(heights: seq<nat>)
    requires heights != []
    ensures (forall chain: Chain, c: Contract :: c.lastSynced == 0 ==>
               Run(chain, c, Calm(heights)).rows == Due(chain, c, Calm(heights)))
            <==> heights[0] != 0
  {
    hide Run, Due, Spilled;
    if heights[0] == 0 {
      SpillsBlockZero(heights);
      EveryRowAccounted(ONE_EVENT, ANY, Calm(heights));
      assert ANY.lastSynced == 0;
    } else {
      forall chain: Chain, c: Contract | c.lastSynced == 0
        ensures Run(chain, c, Calm(heights)).rows == Due(chain, c, Calm(heights))
      {
        CalmIsFaultFree(chain, c, heights);
        EveryRowAccounted(chain, c, Calm(heights));
        FaultFreeSpillsNothing(chain, c, Calm(heights));
      }
    }
  }

  lemma {:induction false} SpillsBlockZero(heights: seq<nat>)
    requires heights != [] && heights[0] == 0
    ensures Spilled(ONE_EVENT, ANY, Calm(heights)) != multiset{}
  {
    hide Expected, Succeeds, Added;
    var n := |heights| - 1;
    assert Calm(heights)[..n] == Calm(heights[..n]);
    if n > 0 {
      SpillsBlockZero(heights[..n]);
    } else {
      assert Calm(heights)[..1] == Calm(heights);
      assert heights[..0] == [];
      HeightZero(ONE_EVENT, ANY);
      OneEventExpected(0);
      assert RowOf(ANY, E0) in Added(ONE_EVENT, ANY, 0, NO_FAULTS);
    }
  }

  // ---------- which events are stored, and as what ----------

  /** The name that a stored event gets: events without keys, or without a name, are unknown. */
  function NameFor(e: Event): string {
    if e.keys == [] || e.name == "" then "UnknownEvent" else e.name
  }

  /** The row records this event for this contract. */
  predicate Records(row: Row, c: Contract, e: Event) {
    && row.contractId == c.id && row.name == NameFor(e) && row.keys == e.keys && row.data == e.data
    && row.block == e.block && row.blockHash == e.blockHash && row.transactionHash == e.transactionHash
  }

  /** A contract that monitors nothing in particular wants every event; otherwise an event must
      have keys and a monitored name. */
  predicate Monitors(c: Contract, e: Event) {
    c.monitored == [] || (e.keys != [] && NameFor(e) in c.monitored)
  }

  /** The row of a block. */
  ghost predicate FromBlock(chain: Chain, c: Contract, row: Row, block: int) {
    exists i :: 0 <= i < |chain(c.address, block)| && Monitors(c, chain(c.address, block)[i])
      && Records(row, c, chain(c.address, block)[i])
  }

  lemma {:induction false} RowsOfMonitored(c: Contract, events: seq<Event>, row: Row)
    ensures row in RowsOf(c, events)
            <==> exists i :: 0 <= i < |events| && Monitors(c, events[i]) && Records(row, c, events[i])
  {
    hide RowsOfOne, Monitors, Records;
    if events != [] {
      var n := |events| - 1;
      RowsOfMonitored(c, events[..n], row);
      assert forall i :: 0 <= i < n ==> events[..n][i] == events[i];
      RowOfMonitored(c, events[n], row);
    }
  }

  lemma RowOfMonitored(c: Contract, e: Event, row: Row)
    ensures row in RowsOfOne(c, e) <==> Monitors(c, e) && Records(row, c, e)
  {
  }

  lemma {:induction false} ExpectedMonitored(chain: Chain, c: Contract, from: int, upto: int, row: Row)
    ensures row in Expected(chain, c, from, upto)
            <==> exists block: int :: from <= block <= upto && FromBlock(chain, c, row, block)
    decreases upto - from
  {
    hide RowsOf, FromBlock;
    if upto >= from {
      ExpectedMonitored(chain, c, from, upto - 1, row);
      BlockMonitored(chain, c, upto, row);
    }
  }

  lemma BlockMonitored(chain: Chain, c: Contract, block: int, row: Row)
    ensures row in RowsOf(c, chain(c.address, block)) <==> FromBlock(chain, c, row, block)
  {
    hide RowsOf;
    RowsOfMonitored(c, chain(c.address, block), row);
  }

  /** However an attempt goes, it adds no row that its range does not call for. */
  lemma {:induction false} SavedIsExpected(chain: Chain, c: Contract, from: int, latest: int, k: nat, faults: Faults)
    requires from <= latest && k <= |Batches(from, latest)|
    ensures Saved(chain, c, Batches(from, latest), k, faults)
            <= Expected(chain, c, from, if k == 0 then from - 1 else Batches(from, latest)[k - 1].last)
  {
    hide Batches, Expected, EventsIn, RowsOf;
    var batches := Batches(from, latest);
    BatchesTile(from, latest);
    if k == 0 {
      ExpectedNothing(chain, c, from);
    } else {
      SavedIsExpected(chain, c, from, latest, k - 1, faults);
      var r := batches[k - 1];
      FetchedIsExpected(chain, c, r.first, r.last);
      if k - 1 > 0 {
        BatchesOrdered(from, latest, 0, k - 1);
      }
      ExpectedJoins(chain, c, from, r.first - 1, r.last);
    }
  }

  lemma AddedFromBlocks(chain: Chain, c: Contract, latest: nat, faults: Faults, row: Row)
    requires row in Added(chain, c, latest, faults)
    ensures exists block: int :: 0 <= block <= latest && FromBlock(chain, c, row, block)
  {
    hide Saved, FromBlock;
    var from := FirstBlock(c, latest);
    var batches := Batches(from, latest);
    var k := Fetched(faults, |batches|);
    NothingNewAddsNothing(chain, c, latest, faults);
    BatchesTile(from, latest);
    SavedIsExpected(chain, c, from, latest, k, faults);
    var upto := if k == 0 then from - 1 else batches[k - 1].last;
    LastBelow(from, latest, k);
    ExpectedMonitored(chain, c, from, upto, row);
  }

  lemma LastBelow(from: int, latest: int, k: nat)
    requires from <= latest && k <= |Batches(from, latest)|
    ensures k > 0 ==> Batches(from, latest)[k - 1].last <= latest
  {
    BatchesTile(from, latest);
    if 0 < k < |Batches(from, latest)| {
      BatchesOrdered(from, latest, k - 1, |Batches(from, latest)| - 1);
    }
  }

  /** Over any run with any failures, every stored row records an event of the chain that the
      contract monitors. */
  lemma {:induction false} OnlyMonitoredAreStored(chain: Chain, c: Contract, attempts: seq<Attempt>, row: Row)
    requires row in Run(chain, c, attempts).rows
    ensures exists block: nat :: FromBlock(chain, c, row, block)
    ensures row.contractId == c.id && (c.monitored != [] ==> row.name in c.monitored)
  {
    hide Added, Succeeds, FromBlock;
    var n := |attempts| - 1;
    var before := Run(chain, c, attempts[..n]);
    if row in before.rows {
      OnlyMonitoredAreStored(chain, c, attempts[..n], row);
    } else {
      SameBut(chain, c, attempts[..n]);
      AddedFromBlocks(chain, before.contract, attempts[n].latest, attempts[n].faults, row);
      var block: int :| 0 <= block <= attempts[n].latest && FromBlock(chain, before.contract, row, block);
      SameBlock(chain, c, before.contract, row, block);
    }
  }

  lemma {:induction false} SameBut(chain: Chain, c: Contract, attempts: seq<Attempt>)
    ensures var d := Run(chain, c, attempts).contract; d == c.(lastSynced := d.lastSynced)
  {
    hide Added, Succeeds;
    if attempts != [] {
      SameBut(chain, c, attempts[..|attempts| - 1]);
    }
  }

  lemma SameBlock(chain: Chain, c: Contract, d: Contract, row: Row, block: int)
    requires d == c.(lastSynced := d.lastSynced) && FromBlock(chain, d, row, block)
    ensures FromBlock(chain, c, row, block)
    ensures row.contractId == c.id && (c.monitored != [] ==> row.name in c.monitored)
  {
    var i :| 0 <= i < |chain(d.address, block)| && Monitors(d, chain(d.address, block)[i])
             && Records(row, d, chain(d.address, block)[i]);
    assert Monitors(c, chain(c.address, block)[i]) && Records(row, c, chain(c.address, block)[i]);
  }

  /** And every monitored event from the origin to lastSyncedBlock has its row. */
  lemma MonitoredAreStored(chain: Chain, c: Contract, attempts: seq<Attempt>, block: int, i: nat, row: Row)
    requires c.lastSynced == 0 && Origin(chain, c, attempts).Some?
    requires Origin(chain, c, attempts).value <= block <= Run(chain, c, attempts).contract.lastSynced
    requires i < |chain(c.address, block)| && Monitors(c, chain(c.address, block)[i])
    requires Records(row, c, chain(c.address, block)[i])
    ensures row in Run(chain, c, attempts).rows
  {
    hide Run, Origin;
    var from, upto := Origin(chain, c, attempts).value, Run(chain, c, attempts).contract.lastSynced;
    StoredAtLeastOnce(chain, c, attempts);
    assert FromBlock(chain, c, row, block);
    ExpectedMonitored(chain, c, from, upto, row);
  }

  /** How many of the events call for this row. */
  function Calls(c: Contract, events: seq<Event>, row: Row): nat {
    if events == [] then 0
    else
      var e := events[|events| - 1];
      Calls(c, events[..|events| - 1], row) + (if Monitors(c, e) && Records(row, c, e) then 1 else 0)
  }

  /** How many events of the blocks do. */
  function CallsIn(chain: Chain, c: Contract, row: Row, from: int, upto: int): nat
    decreases upto - from
  {
    if upto < from then 0 else CallsIn(chain, c, row, from, upto - 1) + Calls(c, chain(c.address, upto), row)
  }

  lemma {:induction false} RowsOfCalls(c: Contract, events: seq<Event>, row: Row)
    ensures RowsOf(c, events)[row] == Calls(c, events, row)
  {
    if events != [] {
      RowsOfCalls(c, events[..|events| - 1], row);
    }
  }

  lemma {:induction false} ExpectedCalls(chain: Chain, c: Contract, row: Row, from: int, upto: int)
    ensures Expected(chain, c, from, upto)[row] == CallsIn(chain, c, row, from, upto)
    decreases upto - from
  {
    hide RowsOf, Calls;
    if upto >= from {
      ExpectedCalls(chain, c, row, from, upto - 1);
      RowsOfCalls(c, chain(c.address, upto), row);
    }
  }

  /** Without faults, and with a first height that is not 0, every row is stored as often as the
      events from the first block to lastSyncedBlock call for it. */
  lemma StoredAsOftenAsCalled(chain: Chain, c: Contract, attempts: seq<Attempt>, row: Row)
    requires c.lastSynced == 0 && attempts != [] && attempts[0].latest >= 1 && FaultFree(chain, c, attempts)
    ensures var s := Run(chain, c, attempts);
      s.rows[row] == CallsIn(chain, c, row, Max(0, attempts[0].latest - 100), s.contract.lastSynced)
  {
    hide Run;
    StoredExactlyOnce(chain, c, attempts);
    ExpectedCalls(chain, c, row, FirstBlock(c, attempts[0].latest), Run(chain, c, attempts).contract.lastSynced);
  }

  // ---------- when the height is recorded ----------

  /** The i-th batch, in block numbers. */
  lemma {:induction false} BatchAt(from: int, latest: int, i: nat)
    ensures i < |Batches(from, latest)| <==> from + 50 * i <= latest
    ensures i < |Batches(from, latest)| ==>
      Batches(from, latest)[i] == Range(from + 50 * i, Min(from + 50 * i + 49, latest))
    decreases i
  {
    if from <= latest && i > 0 {
      BatchAt(Min(from + BATCH_SIZE - 1, latest) + 1, latest, i - 1);
    }
  }

  ghost predicate NothingToStore(chain: Chain, c: Contract, block: int) {
    forall e :: e in chain(c.address, block) ==> !Monitors(c, e)
  }

  lemma EmptyRange(chain: Chain, c: Contract, r: Range)
    ensures RangeRows(chain, c, r) == multiset{}
            <==> forall block :: r.first <= block <= r.last ==> NothingToStore(chain, c, block)
  {
    hide Expected, FromBlock, NothingToStore;
    FetchedIsExpected(chain, c, r.first, r.last);
    forall row
      ensures row in RangeRows(chain, c, r)
              <==> exists block: int :: r.first <= block <= r.last && FromBlock(chain, c, row, block)
    {
      ExpectedMonitored(chain, c, r.first, r.last, row);
    }
    forall block | r.first <= block <= r.last
      ensures NothingToStore(chain, c, block) <==> forall row :: !FromBlock(chain, c, row, block)
    {
      EmptyBlock(chain, c, block);
    }
    var rows := RangeRows(chain, c, r);
    if rows == multiset{} {
      forall block, row | r.first <= block <= r.last
        ensures !FromBlock(chain, c, row, block)
      {
        assert row !in rows;
      }
    } else {
      var row :| row in rows;
      var block: int :| r.first <= block <= r.last && FromBlock(chain, c, row, block);
      assert !NothingToStore(chain, c, block);
    }
  }

  lemma EmptyBlock(chain: Chain, c: Contract, block: int)
    ensures NothingToStore(chain, c, block) <==> forall row :: !FromBlock(chain, c, row, block)
  {
    var events := chain(c.address, block);
    if i :| 0 <= i < |events| && Monitors(c, events[i]) {
      var e := events[i];
      var row := Row(c.id, NameFor(e), e.keys, e.data, e.block, e.blockHash, e.transactionHash);
      assert Records(row, c, e);
      assert FromBlock(chain, c, row, block);
    }
  }

  /** Batch i is fetched, and saved if there is anything to save. */
  ghost predicate BatchDone(chain: Chain, c: Contract, first: int, latest: int, faults: Faults, i: nat) {
    && i !in faults.fetches
    && (i in faults.saves ==>
          forall block :: first + 50 * i <= block <= Min(first + 50 * i + 49, latest) ==>
            NothingToStore(chain, c, block))
  }

  lemma DoneIsSuccess(chain: Chain, c: Contract, latest: nat, faults: Faults)
    ensures var first := FirstBlock(c, latest);
      first <= latest ==>
      (Succeeds(chain, c, latest, faults) <==>
         !faults.update && forall i: nat :: first + 50 * i <= latest ==> BatchDone(chain, c, first, latest, faults, i))
  {
    hide FirstBlock, RangeRows, Batches, NothingToStore;
    var first := FirstBlock(c, latest);
    var batches := Batches(first, latest);
    BatchesEmpty(first, latest);
    forall i: nat
      ensures i < |batches| <==> first + 50 * i <= latest
      ensures i < |batches| ==>
        (BatchDone(chain, c, first, latest, faults, i) <==>
           i !in faults.fetches && (i in faults.saves ==> RangeRows(chain, c, batches[i]) == multiset{}))
    {
      BatchAt(first, latest, i);
      if i < |batches| {
        EmptyRange(chain, c, batches[i]);
      }
    }
  }

  /** A synchronisation starts after the recorded height, or a hundred blocks back when there is
      none, and records the new one exactly when there are blocks to look at, every batch of 50 is
      fetched, every batch with something to store is saved, and the update goes through. */
  lemma HeightMovesExactly(chain: Chain, s: State, latest: nat, faults: Faults)
    ensures var c := s.contract;
      var first := if c.lastSynced != 0 then c.lastSynced + 1 else Max(0, latest - 100);
      Sync(chain, s, latest, faults).contract ==
        if && first <= latest && !faults.update
           && forall i: nat :: first + 50 * i <= latest ==> BatchDone(chain, c, first, latest, faults, i)
        then c.(lastSynced := latest) else c
  {
    hide Succeeds, Added, BatchDone;
    DoneIsSuccess(chain, s.contract, latest, faults);
  }

  // ---------- the service ----------

  class EventListenerService {
    const chain: Chain
    var table: map<string, State>

    constructor (chain: Chain, table: map<string, State>)
      ensures this.chain == chain && this.table == table
    {
      this.chain := chain;
      this.table := table;
    }

    /** Fetches batch after batch and saves what matches; the rows of a failed save are lost,
        and a failed fetch ends the loop. */
    static method FetchAndSave(chain: Chain, c: Contract, start: int, latest: int, faults: Faults)
      returns (rows: multiset<Row>, fetchFailed: bool, saveFailed: bool)
      ensures var batches := Batches(start, latest);
        var fetched := Fetched(faults, |batches|);
        && rows == Saved(chain, c, batches, fetched, faults)
        && (fetchFailed <==> fetched < |batches|)
        && (saveFailed <==> !SavesSucceed(chain, c, batches, fetched, faults))
    {
      hide EventsIn, RowsOf, Batches, Saved, SavesSucceed, Fetched;
      NothingSaved(chain, c, Batches(start, latest), faults);
      rows, fetchFailed, saveFailed := multiset{}, false, false;
      var fromBlock := start;
      ghost var batches := Batches(start, latest);
      var batch: nat := 0;
      while fromBlock <= latest && !fetchFailed
        invariant batch <= |batches| && batches[batch..] == Batches(fromBlock, latest)
        invariant Fetched(faults, batch) == batch
        invariant fetchFailed ==> batch < |batches| && batch in faults.fetches
        invariant rows == Saved(chain, c, batches, batch, faults)
        invariant saveFailed <==> !SavesSucceed(chain, c, batches, batch, faults)
        decreases |batches| - batch, !fetchFailed
      {
        var toBlock := Min(fromBlock + BATCH_SIZE - 1, latest);
        FirstBatch(fromBlock, latest);
        assert batches[batch] == batches[batch..][0] == Range(fromBlock, toBlock);
        assert batches[batch + 1..] == batches[batch..][1..];
        OneBatchMore(chain, c, batches, batch, faults);
        if batch in faults.fetches {
          fetchFailed := true;
        } else {
          var matching := RowsOf(c, EventsIn(chain, c.address, fromBlock, toBlock));
          if matching != multiset{} && batch in faults.saves {
            saveFailed := true;
          } else {
            rows := rows + matching;
          }
          batch := batch + 1;
          fromBlock := toBlock + 1;
        }
      }
      BatchesEmpty(fromBlock, latest);
      StopsAt(faults, batch, |batches|);
    }

    /** Synchronises one contract and, if nothing failed, records the height. */
    method ProcessContractEvents(id: string, latest: nat, faults: Faults) returns (ok: bool)
      requires id in table
      modifies this`table
      ensures table == old(table)[id := Sync(chain, old(table)[id], latest, faults)]
      ensures ok <==> Succeeds(chain, old(table)[id].contract, latest, faults)
    {
      hide Batches, Saved, Fetched, SavesSucceed;
      var State(c, rows) := table[id];
      var fromBlock: int := if c.lastSynced != 0 then c.lastSynced + 1 else Max(0, latest - FIRST_SYNC_DEPTH);
      BatchesEmpty(fromBlock, latest);
      if fromBlock > latest {
        NothingSaved(chain, c, [], faults);
        assert table[id] == Sync(chain, table[id], latest, faults);
        return true;
      }
      var added, fetchFailed, saveFailed := FetchAndSave(chain, c, fromBlock, latest, faults);
      rows := rows + added;
      if !(fetchFailed || saveFailed || faults.update) {
        c := c.(lastSynced := latest);
        ok := true;
      } else {
        ok := false;
      }
      assert State(c, rows) == Sync(chain, table[id], latest, faults);
      table := table[id := State(c, rows)];
    }

    /** One poll: every active contract is synchronised to the same height, and the failure
        of one does not stop the others. */
    method PollForEvents(latest: nat, faults: map<string, Faults>) returns (ok: bool)
      modifies this`table
      ensures table.Keys == old(table).Keys
      ensures forall id :: id in table ==>
        table[id] == if old(table)[id].contract.isActive then Sync(chain, old(table)[id], latest, FaultsOf(faults, id))
                     else old(table)[id]
      ensures ok <==> forall id :: id in old(table) && old(table)[id].contract.isActive ==>
        Succeeds(chain, old(table)[id].contract, latest, FaultsOf(faults, id))
    {
      hide Sync, Succeeds, FaultsOf;
      ok := true;
      var pending := set id | id in table && table[id].contract.isActive;
      ghost var active := pending;
      while pending != {}
        invariant pending <= active <= table.Keys == old(table).Keys
        invariant forall id :: id in table ==>
          table[id] == if id in active - pending then Sync(chain, old(table)[id], latest, FaultsOf(faults, id))
                       else old(table)[id]
        invariant ok <==> forall id :: id in active - pending ==>
          Succeeds(chain, old(table)[id].contract, latest, FaultsOf(faults, id))
        decreases |pending|
      {
        var id :| id in pending;
        var done := ProcessContractEvents(id, latest, FaultsOf(faults, id));
        ok := ok && done;
        pending := pending - {id};
      }
    }

    /** The block number a caller passes to manualSync is ignored, as in the source. */
    method ManualSync(id: string, fromBlock: Option<nat>, latest: nat, faults: Faults) returns (ok: bool)
      modifies this`table
      ensures id !in old(table) ==> !ok && table == old(table)
      ensures id in old(table) ==>
        && table == old(table)[id := Sync(chain, old(table)[id], latest, faults)]
        && (ok <==> Succeeds(chain, old(table)[id].contract, latest, faults))
    {
      if id !in table { return false; }
      ok := ProcessContractEvents(id, latest, faults);
    }
  }

  lemma BatchesEmpty(from: int, latest: int)
    ensures Batches(from, latest) == [] <==> from > latest
  {
  }

  lemma FirstBatch(from: int, latest: int)
    requires from <= latest
    ensures var upto := Min(from + BATCH_SIZE - 1, latest);
      Batches(from, latest) == [Range(from, upto)] + Batches(upto + 1, latest)
  {
  }

  lemma NothingSaved(chain: Chain, c: Contract, batches: seq<Range>, faults: Faults)
    ensures Fetched(faults, 0) == 0 && Saved(chain, c, batches, 0, faults) == multiset{}
    ensures SavesSucceed(chain, c, batches, 0, faults)
  {
  }

  /** What one more batch does to the progress of a synchronisation. */
  lemma OneBatchMore(chain: Chain, c: Contract, batches: seq<Range>, k: nat, faults: Faults)
    requires k < |batches|
    ensures Saved(chain, c, batches, k + 1, faults)
            == Saved(chain, c, batches, k, faults)
               + (if k in faults.saves then multiset{} else RangeRows(chain, c, batches[k]))
    ensures SavesSucceed(chain, c, batches, k + 1, faults)
            <==> SavesSucceed(chain, c, batches, k, faults)
                 && (k in faults.saves ==> RangeRows(chain, c, batches[k]) == multiset{})
    ensures Fetched(faults, k) == k && k !in faults.fetches ==> Fetched(faults, k + 1) == k + 1
  {
    hide RangeRows;
  }

  function FaultsOf(faults: map<string, Faults>, id: string): Faults {
    if id in faults then faults[id] else Faults({}, {}, false)
  }

  lemma {:induction false} StopsAt(faults: Faults, k: nat, n: nat)
    requires k <= n && Fetched(faults, k) == k && (k < n ==> k in faults.fetches)
    ensures Fetched(faults, n) == k
  {
    if k < n {
      if k < n - 1 {
        StopsAt(faults, k, n - 1);
      }
    }
  }
}
