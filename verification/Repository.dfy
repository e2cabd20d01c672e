// The durable state of one task and its transactions, with the semantics of
// SQLiteRepository: a transaction is a snapshot that an exception restores.
// The table of hunger items is shared with other tasks; `others` and `copies` are as in `Domain.ItemRows`.
module Repository {
  import opened Domain

  datatype AcceptedRow = AcceptedRow(itemId: string, indexText: string, loop: int, validationId: string,
                                     evidence: Option<string>)
  datatype CandidateStatus = Pending | Committed | Rejected

  datatype Event =
    | DiscoveryCredit(proposer: string, checkKey: string, creditLoop: int)
    | RegenerationFailed(candidateId: string, failedLoop: int)
    | ContinuationSeeded(seededLoop: int, chainLength: int, regressedKeys: set<string>)
    | ContinuationSkipped(skippedLoop: int, skipReason: SkipReason)

  datatype SkipReason = PolicyDisabled | RepeatedRegression | MaxChainReached | SourceUnavailable

  datatype Trace = Trace(loopId: int, candidateId: Option<string>, committed: bool,
                         newly: seq<string>, regressed: seq<string>, stopReason: Option<StopReason>)

  datatype Db = Db(
    policy: Policy, clock: Clock, items: seq<HungerItem>,
    others: map<string, HungerItem>, copies: map<string, HungerItem>, best: Option<BestState>,
    accepted: map<string, AcceptedRow>, candidates: map<string, CandidateStatus>,
    features: map<string, FeatureStatus>, hasMission: bool, txn: Option<Transaction>,
    traces: map<int, Trace>, events: seq<Event>, streak: nat, lastLoopId: nat)

  /** `best.accepted_check_keys if best else []` */
  function BestKeys(db: Db): set<string> {
    if db.best.Some? then db.best.value.accepted else {}
  }

  function RowsOf(db: Db): ItemRows {
    ItemRows(db.items, db.others, db.copies)
  }

  function Replaced(items: seq<HungerItem>, row: HungerItem): seq<HungerItem> {
    seq(|items|, i requires 0 <= i < |items| => if items[i].id == row.id then row else items[i])
  }

  /** Other tasks' rows still newer than this task's once it has written a row of that id: an update
      keeps the place of a row the task had, a first insert is the newest row. */
  function StillNewer(db: Db, id: string): map<string, HungerItem> {
    if HasId(db.items, id) || id in db.copies then db.others else db.others - {id}
  }

  /** `update_hunger_item_status` after its lookup: whatever row was found becomes this task's. */
  function WithRow(db: Db, row: HungerItem): Db {
    db.(items := Replaced(db.items, row), others := StillNewer(db, row.id),
        copies := if HasId(db.items, row.id) then db.copies else db.copies[row.id := row])
  }

  /** A ledger saved with one more item. */
  function WithNewItem(db: Db, item: HungerItem): Db {
    db.(items := db.items + [item], others := StillNewer(db, item.id), copies := db.copies - {item.id})
  }

  /** Keys that already earned a DISCOVERY_CREDIT event, oldest first. */
  function CreditedKeys(events: seq<Event>): seq<string> {
    if events == [] then []
    else
      var last := events[|events| - 1];
      CreditedKeys(events[..|events| - 1]) + if last.DiscoveryCredit? then [last.checkKey] else []
  }

  function SetStatus(candidates: map<string, CandidateStatus>, id: string, s: CandidateStatus)
    : map<string, CandidateStatus>
  {
    if id in candidates then candidates[id := s] else candidates
  }

  class SQLiteRepository {
    var db: Db
    var txDepth: nat
    var snapshot: Db

    constructor (db: Db)
      ensures this.db == db && txDepth == 0
    {
      this.db := db;
      this.txDepth := 0;
      this.snapshot := db;
    }

    /** Entering `with repo.transaction()`; only the outermost one issues BEGIN. */
    method Begin()
      modifies this
      ensures db == old(db) && txDepth == old(txDepth) + 1
      ensures snapshot == if old(txDepth) == 0 then old(db) else old(snapshot)
    {
      if txDepth == 0 { snapshot := db; }
      txDepth := txDepth + 1;
    }

    /** Leaving the block normally. */
    method End()
      requires txDepth > 0
      modifies this`txDepth
      ensures txDepth == old(txDepth) - 1
    {
      txDepth := txDepth - 1;
    }

    /** Leaving the block by an exception: the outermost block issues ROLLBACK. */
    method Abort()
      requires txDepth > 0
      modifies this
      ensures txDepth == old(txDepth) - 1 && snapshot == old(snapshot)
      ensures db == if old(txDepth) == 1 then old(snapshot) else old(db)
    {
      if txDepth == 1 { db := snapshot; }
      txDepth := txDepth - 1;
    }
  }
}
