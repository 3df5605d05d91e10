# atproto PDS write gate and DNS handle resolution, in Dafny

This project models two pieces of decision logic of the atproto personal data
server and identifier package, and proves what they promise.

- **`com.atproto.repo.applyWrites` (module `ApplyWrites`, `apply_writes.dfy`).**
  The handler rejects a caller acting on another account's repository
  (`AuthRequired`), rejects `validate: false`, rejects any batch holding an
  update, prepares every create and delete in order through `prepareCreate` /
  `prepareDelete` (record errors become `InvalidRequest` errors with the same
  message, other errors pass through), and then, inside the storage
  transaction, compares the optional `swapCommit` with the head of the
  repository. A non-empty `swapCommit` that differs from the head is refused
  with an `InvalidRequest` named `InvalidSwap` whose message names the head or
  `null`; otherwise the whole prepared batch goes, once, to `processWrites`
  together with the head that was compared. `Validate` and `Plan` are the pure
  specification of the handler; the class `Repos` holds the mutable head of
  every account and a ghost log of every batch handed to `processWrites`, and
  its method `ApplyWrites` is proved to behave as `Plan` says on the head of
  the request's account, the only head it reads and moves. The handler itself
  resolves to nothing; the method returns `Ok(())` and the new head is visible
  only in the storage.
- **`resolveDns` (module `Resolve`, `resolve.dfy`).** The TXT records of
  `_atproto.<handle>` are looked up; ENOTFOUND becomes `NoHandleRecord` and any
  other lookup error is re-thrown unchanged. Each record's chunks are joined,
  the records starting with `did=` are kept, exactly one must remain, and the
  DID is that record without the prefix.

Foreign code is passed in as function parameters: `prepareCreate`,
`prepareDelete` and `processWrites` for the handler, the DNS TXT lookup for
`resolveDns`. The timestamp the handler takes from the clock is a parameter
(`now`), and the authenticated requester's DID is a parameter (`requester`).
Record payloads and prepared writes are opaque types.

Two points of the handler worth noting: it refuses every `Update` write, and
it signals a swap mismatch as an `InvalidRequestError` with the custom error
name `InvalidSwap`, not as an error class of its own.

## Model

| member | source | states |
|---|---|---|
| ApplyWrites.PrepareOne | packages/pds/src/api/com/atproto/repo/applyWrites.ts:35-55 | a create goes to prepareCreate with the request's did and validate, a delete to prepareDelete, and an update fails with "Action not supported: update" |
| ApplyWrites.CatchPrepareError | packages/pds/src/api/com/atproto/repo/applyWrites.ts:57-62 | a record error becomes an InvalidRequest with the same message, every other error is kept; no record error escapes |
| ApplyWrites.Validate | packages/pds/src/api/com/atproto/repo/applyWrites.ts:16-62 | success implies the caller owns the repository, validation is not off, no write is an update and there is one prepared write per write; no record error ever escapes |
| ApplyWrites.Plan | packages/pds/src/api/com/atproto/repo/applyWrites.ts:16-75 | a batch handed on belongs to the requester's repository, carries `now` and the compared head, has one write per input write and passed the swap guard; no record error escapes |
| ApplyWrites.SwapGuardCases | packages/pds/src/api/com/atproto/repo/applyWrites.ts:69 | the guard never fires for an absent or empty `swapCommit`, always fires for a non-empty one on a repository without a head, and otherwise fires exactly when it differs from the head |
| ApplyWrites.PrepareAll | packages/pds/src/api/com/atproto/repo/applyWrites.ts:32-56 | succeeds exactly when every write prepares; then one prepared write per input write, in order; otherwise the error of the first failing write, all earlier writes having prepared |
| ApplyWrites.AuthCheckedFirst | packages/pds/src/api/com/atproto/repo/applyWrites.ts:15-18 | a request whose `did` is not the requester's fails with AuthRequired, whatever the rest of the request, the preparations and the head are |
| ApplyWrites.UnvalidatedRejected | packages/pds/src/api/com/atproto/repo/applyWrites.ts:19-23 | for the owner, `validate == false` fails with the "Unvalidated writes are not yet supported." InvalidRequest, before the writes are looked at |
| ApplyWrites.UpdateRejectsBatch | packages/pds/src/api/com/atproto/repo/applyWrites.ts:25-30 | one update anywhere in the batch rejects the whole batch with "Updates are not yet supported.", whatever the preparation functions would return |
| ApplyWrites.PreparedInOrder | packages/pds/src/api/com/atproto/repo/applyWrites.ts:34-56 | on success the batch has one prepared write per input write in the same order; a create is `prepareCreate(did, collection, value, rkey, validate)`, a delete `prepareDelete(did, collection, rkey)`; no write is an update; the batch carries the compared head |
| ApplyWrites.FirstPrepareErrorReported | packages/pds/src/api/com/atproto/repo/applyWrites.ts:57-62 | when the first failing preparation raises InvalidRecord(m) the handler throws InvalidRequest(m); any other error is thrown unchanged |
| ApplyWrites.SwapMismatchRejected | packages/pds/src/api/com/atproto/repo/applyWrites.ts:68-74 | a non-empty `swapCommit` different from the head fails with "Commit was at <head>" named InvalidSwap |
| ApplyWrites.SwapOnEmptyRepoRejected | packages/pds/src/api/com/atproto/repo/applyWrites.ts:69-71 | with no head, every non-empty `swapCommit` fails with "Commit was at null" named InvalidSwap |
| ApplyWrites.SwapMatchAccepted | packages/pds/src/api/com/atproto/repo/applyWrites.ts:69-75 | with no or an empty `swapCommit`, or one equal to the head, the full prepared list goes to processWrites with that head |
| ApplyWrites.EmptySwapCommitIsAbsent | packages/pds/src/api/com/atproto/repo/applyWrites.ts:69 | an empty `swapCommit` gives the same outcome as an absent one |
| ApplyWrites.ChecksIgnoreHead | packages/pds/src/api/com/atproto/repo/applyWrites.ts:16-68 | a rejection before the transaction is the same whatever the head is |
| ApplyWrites.AllOrNothing | packages/pds/src/api/com/atproto/repo/applyWrites.ts:16-75 | a batch reaches processWrites if and only if the caller owns the repository, validation is not off, no write is an update, every write prepares and the swap guard passes |
| ApplyWrites.Repos.HeadOf | packages/pds/src/api/com/atproto/repo/applyWrites.ts:67-68 | the pinned head of an account is its stored head, or none when the account has none |
| ApplyWrites.Repos.ApplyWrites | packages/pds/src/api/com/atproto/repo/applyWrites.ts:12-76 | on a rejection the error is returned, no head changes and processWrites is not called; otherwise processWrites is called exactly once with the batch `Plan` gives for the head of `req.did` read in the transaction, and that account's head, and no other, becomes its result, or nothing changes when it fails; the handler's own result is empty |
| Resolve.ResolveDns | packages/identifier/src/resolve.ts:7-23 | a DID is returned if and only if the lookup of `_atproto.<handle>` succeeds and exactly one record starts with `did=`, and it is that record without the prefix; every other outcome is NoHandleRecord or a non-ENOTFOUND lookup error re-thrown unchanged |
| Resolve.QueryName | packages/identifier/src/resolve.ts:4-10 | the queried name starts with `_atproto.` and the rest of it is the handle |
| Resolve.OnlyQueryNameLookedUp | packages/identifier/src/resolve.ts:9-10 | the outcome depends on the lookup only through the records of `_atproto.<handle>` |
| Resolve.LookupErrorMapped | packages/identifier/src/resolve.ts:11-16 | a lookup error with code ENOTFOUND becomes NoHandleRecord; any other lookup error is re-thrown unchanged |
| Resolve.Join | packages/identifier/src/resolve.ts:17 | the first chunk begins the joined record, and a one-chunk record is that chunk |
| Resolve.Joined | packages/identifier/src/resolve.ts:17 | one joined record per looked-up record, in order, each the join of its chunks |
| Resolve.JoinAppend | packages/identifier/src/resolve.ts:17 | joining the chunks of a record distributes over concatenation of chunk lists, so a record is the in-order concatenation of its chunks |
| Resolve.JoinSplit | packages/identifier/src/resolve.ts:17 | a record split into two chunks at any point joins back to itself |
| Resolve.Found | packages/identifier/src/resolve.ts:18 | the kept records are exactly the records that start with `did=`, and there are no more of them than records |
| Resolve.FoundAppend | packages/identifier/src/resolve.ts:18 | filtering distributes over concatenation, keeping order |
| Resolve.ExtractDid | packages/identifier/src/resolve.ts:17-22 | a returned DID with `did=` in front is one of the joined records; every failure is NoHandleRecord |
| Resolve.ExtractDidExactlyOne | packages/identifier/src/resolve.ts:18-22 | a DID is returned if and only if exactly one record starts with `did=`, and it is that record without its first four characters |
| Resolve.NoDidRecordRejected | packages/identifier/src/resolve.ts:19-21 | no record starting with `did=` gives NoHandleRecord |
| Resolve.AmbiguousRecordsRejected | packages/identifier/src/resolve.ts:19-21 | two records starting with `did=`, equal or not, give NoHandleRecord |
| Resolve.PrefixRoundTrip | packages/identifier/src/resolve.ts:22 | for the returned DID `s` some record `r` satisfies `"did=" + s == r`, so `s` has length `|r| - 4` |
| Resolve.NonDidRecordIgnored | packages/identifier/src/resolve.ts:18-19 | inserting a record that does not start with `did=` anywhere never changes the outcome |
| Resolve.SplitDidRecordResolves | packages/identifier/src/resolve.ts:17-22 | a single record `did=<did>` split into two chunks at any point, inside the prefix included, resolves to `<did>` |

## Left out

- The Merkle Search Tree, the block store, commit construction and the body of `processWrites` are not part of this model; `processWrites` is a parameter yielding the new head or an error that rolls the transaction back.
- The bodies of `prepareCreate` and `prepareDelete` (record schema validation, URI and CID computation) are foreign; they are parameters that may fail with InvalidRecord or any other error.
- `Promise.all` runs the preparations concurrently and rejects with whichever fails first in time; the model prepares in order and reports the first failing write in batch order.
- `ctx.db.transaction` is modelled as the body of `Repos.ApplyWrites` running without interleaving; concurrent writers and the storage layer's locking are not modelled.
- The clock (`new Date().toISOString()`) is the parameter `now`; `SqlRepoStorage` and the pinned state other than the head are not modelled.
- The Express request plumbing and the auth verifier `ctx.accessVerifierCheckTakedown` are left out; the requester's DID is a parameter.
- The message of `AuthRequiredError` is the library's default and is not modelled.
- The DNS query `dns.resolveTxt` is network I/O; it is a parameter from the queried name to the lookup result. `isErrnoException` is modelled by the lookup error's optional `code`.
