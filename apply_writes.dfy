/**
 * The front half of the `com.atproto.repo.applyWrites` handler of the PDS:
 * the request checks, the preparation of every write of the batch, and the
 * swap guard that compares the caller's expected commit with the head of the
 * repository inside the storage transaction before the batch is handed to
 * `processWrites`.
 */
module ApplyWrites {
  import opened Wrappers

  /** A record payload as the client sent it; its schema is checked by prepareCreate. */
  type Record(==)

  /** A write after preparation; produced by prepareCreate / prepareDelete. */
  type PreparedWrite(==)

  /**
   * One write of the batch, tagged by its action. A create may leave its
   * record key to be chosen; an update or a delete names it (`key`).
   */
  datatype Write =
    | Create(collection: string, rkey: Option<string>, value: Record)
    | Update(collection: string, key: string, value: Record)
    | Delete(collection: string, key: string)

  /** The request body: the target repository, the validation flag, the expected commit and the writes. */
  datatype Request = Request(did: string, validate: Option<bool>, swapCommit: Option<string>, writes: seq<Write>)

  /** What the handler can throw. */
  datatype Error =
    | AuthRequired
      /** An InvalidRequestError; `errorName` is its custom error name, if any. */
    | InvalidRequest(message: string, errorName: Option<string>)
      /** Raised by record preparation when a record does not match its schema. */
    | InvalidRecord(message: string)
      /** Any other error thrown by code the handler calls. */
    | Foreign(description: string)

  /** The arguments of prepareCreate and prepareDelete. */
  datatype CreateOpts = CreateOpts(did: string, collection: string, record: Record, rkey: Option<string>, validate: Option<bool>)
  datatype DeleteOpts = DeleteOpts(did: string, collection: string, rkey: string)

  /** The foreign preparation functions, taken as parameters. */
  type PrepareCreate = CreateOpts -> Result<PreparedWrite, Error>
  type PrepareDelete = DeleteOpts -> Result<PreparedWrite, Error>

  /** Everything handed to processWrites: the repository, the prepared writes, the timestamp and the pinned head. */
  datatype Batch = Batch(did: string, writes: seq<PreparedWrite>, now: string, pinned: Option<string>)

  const UnvalidatedMessage := "Unvalidated writes are not yet supported."
  const UpdatesMessage := "Updates are not yet supported."
  const InvalidSwapName := "InvalidSwap"

  /** The value of `WriteOpAction` for a write. */
  function ActionName(w: Write): string {
    match w
    case Create(_, _, _) => "create"
    case Update(_, _, _) => "update"
    case Delete(_, _) => "delete"
  }

  /** `tx.writes.some(write => write.action === Update)`. */
  predicate HasUpdate(writes: seq<Write>) {
    exists i :: 0 <= i < |writes| && writes[i].Update?
  }

  /** The callback of `tx.writes.map`: dispatch one write on its action. */
  function PrepareOne(did: string, validate: Option<bool>, w: Write, prepareCreate: PrepareCreate, prepareDelete: PrepareDelete): (r: Result<PreparedWrite, Error>)
    ensures w.Create? ==> r == prepareCreate(CreateOpts(did, w.collection, w.value, w.rkey, validate))
    ensures w.Delete? ==> r == prepareDelete(DeleteOpts(did, w.collection, w.key))
    ensures w.Update? ==> r == Err(InvalidRequest("Action not supported: update", None))
  {
    match w
    case Create(collection, rkey, value) => prepareCreate(CreateOpts(did, collection, value, rkey, validate))
    case Delete(collection, rkey) => prepareDelete(DeleteOpts(did, collection, rkey))
    case Update(_, _, _) =>
      assert "Action not supported: " + ActionName(w) == "Action not supported: update";
      Err(InvalidRequest("Action not supported: " + ActionName(w), None))
  }

  /**
   * Prepares every write in order; fails with the error of the first write
   * whose preparation fails.
   */
  function PrepareAll(did: string, validate: Option<bool>, writes: seq<Write>, prepareCreate: PrepareCreate, prepareDelete: PrepareDelete): (r: Result<seq<PreparedWrite>, Error>)
    ensures r.Ok? <==> forall i :: 0 <= i < |writes| ==> PrepareOne(did, validate, writes[i], prepareCreate, prepareDelete).Ok?
    ensures r.Ok? ==> |r.value| == |writes|
    ensures r.Ok? ==> forall i :: 0 <= i < |writes| ==> PrepareOne(did, validate, writes[i], prepareCreate, prepareDelete) == Ok(r.value[i])
    ensures r.Err? ==> exists i :: 0 <= i < |writes| && PrepareOne(did, validate, writes[i], prepareCreate, prepareDelete) == Err(r.error)
                                   && forall j :: 0 <= j < i ==> PrepareOne(did, validate, writes[j], prepareCreate, prepareDelete).Ok?
  {
    if writes == [] then Ok([])
    else
      match PrepareOne(did, validate, writes[0], prepareCreate, prepareDelete)
      case Err(e) => Err(e)
      case Ok(p) =>
        match PrepareAll(did, validate, writes[1..], prepareCreate, prepareDelete)
        case Err(e) =>
          assert forall j :: 1 <= j < |writes| ==> writes[j] == writes[1..][j - 1];
          Err(e)
        case Ok(ps) =>
          assert forall j :: 1 <= j < |writes| ==> writes[j] == writes[1..][j - 1];
          Ok([p] + ps)
  }

  /** The catch block around the preparations: record errors become request errors. */
  function CatchPrepareError(e: Error): (r: Error)
    ensures !r.InvalidRecord?
    ensures e.InvalidRecord? ==> r == InvalidRequest(e.message, None)
    ensures !e.InvalidRecord? ==> r == e
  {
    if e.InvalidRecord? then InvalidRequest(e.message, None) else e
  }

  /** Everything the handler does before the storage transaction. */
  function Validate(requester: string, req: Request, prepareCreate: PrepareCreate, prepareDelete: PrepareDelete): (r: Result<seq<PreparedWrite>, Error>)
    ensures r.Ok? ==> req.did == requester && req.validate != Some(false) && !HasUpdate(req.writes)
    ensures r.Ok? ==> |r.value| == |req.writes|
    ensures r.Err? ==> !r.error.InvalidRecord?
  {
    if req.did != requester then Err(AuthRequired)
    else if req.validate == Some(false) then Err(InvalidRequest(UnvalidatedMessage, None))
    else if HasUpdate(req.writes) then Err(InvalidRequest(UpdatesMessage, None))
    else
      match PrepareAll(req.did, req.validate, req.writes, prepareCreate, prepareDelete)
      case Ok(ws) => Ok(ws)
      case Err(e) => Err(CatchPrepareError(e))
  }

  /** JavaScript truthiness of an optional string: absent and empty are both false. */
  predicate Truthy(s: Option<string>) {
    s.Some? && s.value != ""
  }

  /** `pinned.head?.toString() ?? 'null'`. */
  function HeadText(head: Option<string>): string {
    if head.Some? then head.value else "null"
  }

  /** The swap guard `swapCommit && swapCommit !== pinned.head?.toString()`. */
  predicate SwapMismatch(swapCommit: Option<string>, head: Option<string>) {
    Truthy(swapCommit) && Some(swapCommit.value) != head
  }

  function SwapError(head: Option<string>): Error {
    InvalidRequest("Commit was at " + HeadText(head), Some(InvalidSwapName))
  }

  /**
   * The whole decision of the handler, given the head read inside the
   * transaction: the error it throws, or the batch it hands to processWrites.
   */
  function Plan(requester: string, req: Request, now: string, prepareCreate: PrepareCreate, prepareDelete: PrepareDelete, head: Option<string>): (r: Result<Batch, Error>)
    ensures r.Ok? ==> r.value.did == req.did == requester && r.value.now == now && r.value.pinned == head
    ensures r.Ok? ==> |r.value.writes| == |req.writes| && !SwapMismatch(req.swapCommit, head)
    ensures r.Err? ==> !r.error.InvalidRecord?
  {
    match Validate(requester, req, prepareCreate, prepareDelete)
    case Err(e) => Err(e)
    case Ok(ws) =>
      if SwapMismatch(req.swapCommit, head) then Err(SwapError(head))
      else Ok(Batch(req.did, ws, now, head))
  }

  /**
   * The swap guard, case by case: it fires only for a non-empty expected
   * commit, always when the repository has no head, and otherwise exactly
   * when the expected commit differs from the head.
   */
  lemma SwapGuardCases(swapCommit: Option<string>, head: Option<string>)
    ensures (swapCommit == None || swapCommit == Some("")) ==> !SwapMismatch(swapCommit, head)
    ensures Truthy(swapCommit) && head == None ==> SwapMismatch(swapCommit, head)
    ensures Truthy(swapCommit) && head.Some? ==> (SwapMismatch(swapCommit, head) <==> swapCommit.value != head.value)
  {
  }

  /** A caller acting on another account's repository is rejected before anything else is looked at. */
  lemma AuthCheckedFirst(requester: string, req: Request, now: string, prepareCreate: PrepareCreate, prepareDelete: PrepareDelete, head: Option<string>)
    requires req.did != requester
    ensures Plan(requester, req, now, prepareCreate, prepareDelete, head) == Err(AuthRequired)
  {
  }

  /** `validate: false` is refused once the caller is authorised, before the writes are looked at. */
  lemma UnvalidatedRejected(requester: string, req: Request, now: string, prepareCreate: PrepareCreate, prepareDelete: PrepareDelete, head: Option<string>)
    requires req.did == requester && req.validate == Some(false)
    ensures Plan(requester, req, now, prepareCreate, prepareDelete, head) == Err(InvalidRequest(UnvalidatedMessage, None))
  {
  }

  /** One update anywhere in the batch rejects the whole batch, whatever the preparations would do. */
  lemma UpdateRejectsBatch(requester: string, req: Request, now: string, prepareCreate: PrepareCreate, prepareDelete: PrepareDelete, head: Option<string>, i: int)
    requires req.did == requester && req.validate != Some(false)
    requires 0 <= i < |req.writes| && req.writes[i].Update?
    ensures Plan(requester, req, now, prepareCreate, prepareDelete, head) == Err(InvalidRequest(UpdatesMessage, None))
  {
  }

  /**
   * On success the prepared writes correspond one to one, in order, to the
   * writes of the request: a create is prepared by prepareCreate with the
   * request's `validate`, a delete by prepareDelete; the batch carries the
   * head that was compared.
   */
  lemma PreparedInOrder(requester: string, req: Request, now: string, prepareCreate: PrepareCreate, prepareDelete: PrepareDelete, head: Option<string>, batch: Batch)
    requires Plan(requester, req, now, prepareCreate, prepareDelete, head) == Ok(batch)
    ensures batch.did == req.did == requester && batch.now == now && batch.pinned == head
    ensures |batch.writes| == |req.writes|
    ensures forall i :: 0 <= i < |req.writes| ==>
      match req.writes[i]
      case Create(collection, rkey, value) => prepareCreate(CreateOpts(req.did, collection, value, rkey, req.validate)) == Ok(batch.writes[i])
      case Delete(collection, key) => prepareDelete(DeleteOpts(req.did, collection, key)) == Ok(batch.writes[i])
      case Update(_, _, _) => false
  {
    var ws := Validate(requester, req, prepareCreate, prepareDelete).value;
    forall i | 0 <= i < |req.writes|
      ensures !req.writes[i].Update?
      ensures PrepareOne(req.did, req.validate, req.writes[i], prepareCreate, prepareDelete) == Ok(ws[i])
    {
    }
  }

  /**
   * When the checks pass and the i-th write is the first whose preparation
   * fails, the handler throws that write's error: a record error as an
   * InvalidRequest with the same message, any other error unchanged.
   */
  lemma FirstPrepareErrorReported(requester: string, req: Request, now: string, prepareCreate: PrepareCreate, prepareDelete: PrepareDelete, head: Option<string>, i: int)
    requires req.did == requester && req.validate != Some(false) && !HasUpdate(req.writes)
    requires 0 <= i < |req.writes| && PrepareOne(req.did, req.validate, req.writes[i], prepareCreate, prepareDelete).Err?
    requires forall j :: 0 <= j < i ==> PrepareOne(req.did, req.validate, req.writes[j], prepareCreate, prepareDelete).Ok?
    ensures var e := PrepareOne(req.did, req.validate, req.writes[i], prepareCreate, prepareDelete).error;
      Plan(requester, req, now, prepareCreate, prepareDelete, head) ==
        if e.InvalidRecord? then Err(InvalidRequest(e.message, None)) else Err(e)
  {
    var r := PrepareAll(req.did, req.validate, req.writes, prepareCreate, prepareDelete);
    assert r.Err?;
    var k :| 0 <= k < |req.writes| && PrepareOne(req.did, req.validate, req.writes[k], prepareCreate, prepareDelete) == Err(r.error)
             && forall j :: 0 <= j < k ==> PrepareOne(req.did, req.validate, req.writes[j], prepareCreate, prepareDelete).Ok?;
    assert k == i;
  }

  /** A non-empty expected commit that differs from the head (an empty repository included) is refused as InvalidSwap, naming the head. */
  lemma SwapMismatchRejected(requester: string, req: Request, now: string, prepareCreate: PrepareCreate, prepareDelete: PrepareDelete, head: Option<string>)
    requires Validate(requester, req, prepareCreate, prepareDelete).Ok?
    requires Truthy(req.swapCommit) && head != Some(req.swapCommit.value)
    ensures Plan(requester, req, now, prepareCreate, prepareDelete, head) == Err(InvalidRequest("Commit was at " + HeadText(head), Some("InvalidSwap")))
  {
  }

  /** On a repository without a head every non-empty expected commit is refused, and the message says `null`. */
  lemma SwapOnEmptyRepoRejected(requester: string, req: Request, now: string, prepareCreate: PrepareCreate, prepareDelete: PrepareDelete)
    requires Validate(requester, req, prepareCreate, prepareDelete).Ok?
    requires Truthy(req.swapCommit)
    ensures Plan(requester, req, now, prepareCreate, prepareDelete, None) == Err(InvalidRequest("Commit was at null", Some("InvalidSwap")))
  {
    assert "Commit was at " + HeadText(None) == "Commit was at null";
  }

  /** Without an expected commit, or with one equal to the head, the full prepared list goes to processWrites with that head. */
  lemma SwapMatchAccepted(requester: string, req: Request, now: string, prepareCreate: PrepareCreate, prepareDelete: PrepareDelete, head: Option<string>, ws: seq<PreparedWrite>)
    requires Validate(requester, req, prepareCreate, prepareDelete) == Ok(ws)
    requires !Truthy(req.swapCommit) || head == Some(req.swapCommit.value)
    ensures Plan(requester, req, now, prepareCreate, prepareDelete, head) == Ok(Batch(req.did, ws, now, head))
  {
  }

  /** An empty expected commit is treated exactly as an absent one. */
  lemma EmptySwapCommitIsAbsent(requester: string, req: Request, now: string, prepareCreate: PrepareCreate, prepareDelete: PrepareDelete, head: Option<string>)
    ensures Plan(requester, req.(swapCommit := Some("")), now, prepareCreate, prepareDelete, head)
         == Plan(requester, req.(swapCommit := None), now, prepareCreate, prepareDelete, head)
  {
  }

  /** The checks made before the transaction do not depend on the head: their rejection is the same whatever the head is. */
  lemma ChecksIgnoreHead(requester: string, req: Request, now: string, prepareCreate: PrepareCreate, prepareDelete: PrepareDelete, head1: Option<string>, head2: Option<string>)
    requires Validate(requester, req, prepareCreate, prepareDelete).Err?
    ensures Plan(requester, req, now, prepareCreate, prepareDelete, head1) == Plan(requester, req, now, prepareCreate, prepareDelete, head2)
         == Err(Validate(requester, req, prepareCreate, prepareDelete).error)
  {
  }

  /**
   * All or nothing: a batch reaches processWrites exactly when the caller
   * owns the repository, validation is not switched off, no write is an
   * update, every write prepares, and the swap guard passes.
   */
  lemma AllOrNothing(requester: string, req: Request, now: string, prepareCreate: PrepareCreate, prepareDelete: PrepareDelete, head: Option<string>)
    ensures Plan(requester, req, now, prepareCreate, prepareDelete, head).Ok? <==>
      && req.did == requester
      && req.validate != Some(false)
      && (forall i :: 0 <= i < |req.writes| ==>
            !req.writes[i].Update? && PrepareOne(req.did, req.validate, req.writes[i], prepareCreate, prepareDelete).Ok?)
      && !SwapMismatch(req.swapCommit, head)
  {
  }

  /**
   * The repository storage of the server: the head of every account that has
   * one. The handler opens the storage of the request's `did` and reads and
   * advances that account's head only.
   */
  class Repos {
    /** The current commit (its string form) of each account that has a head. */
    var heads: map<string, string>
    /** Every batch handed to processWrites, in order. */
    ghost var processed: seq<Batch>

    constructor (initial: map<string, string>)
      ensures heads == initial && processed == []
    {
      heads := initial;
      processed := [];
    }

    /** `storage.getPinnedAtHead()` for one account: its head, or none. */
    function HeadOf(did: string): (h: Option<string>)
      reads this
      ensures h.Some? <==> did in heads
      ensures h.Some? ==> h.value == heads[did]
    {
      if did in heads then Some(heads[did]) else None
    }

    /**
     * The handler. `processWrites` is the foreign write application: it yields
     * the account's new head commit, or an error that rolls the transaction
     * back. Only the head of `req.did` is read and moved.
     */
    method ApplyWrites(requester: string, req: Request, now: string, prepareCreate: PrepareCreate, prepareDelete: PrepareDelete,
                       processWrites: Batch -> Result<string, Error>)
      returns (r: Result<(), Error>)
      modifies this
      ensures match Plan(requester, req, now, prepareCreate, prepareDelete, old(HeadOf(req.did)))
        case Err(e) => r == Err(e) && heads == old(heads) && processed == old(processed)
        case Ok(batch) =>
          processed == old(processed) + [batch] &&
          match processWrites(batch)
          case Ok(h) => r == Ok(()) && heads == old(heads)[req.did := h]
          case Err(e) => r == Err(e) && heads == old(heads)
    {
      var prepared := Validate(requester, req, prepareCreate, prepareDelete);
      if prepared.Err? {
        return Err(prepared.error);
      }
      // inside the storage transaction, on the storage of req.did
      var pinned := HeadOf(req.did);
      if SwapMismatch(req.swapCommit, pinned) {
        return Err(SwapError(pinned));
      }
      var batch := Batch(req.did, prepared.value, now, pinned);
      processed := processed + [batch];
      var out := processWrites(batch);
      match out
      case Ok(h) =>
        heads := heads[req.did := h];
        r := Ok(());
      case Err(e) =>
        r := Err(e);
    }
  }
}
