/** The vocabulary every part of the store shares: bodies, versions, leases and write results. */
module Types {
  type Byte = b: int | 0 <= b < 256
  type Bytes = seq<Byte>
  type Key = string
  type Token = string
  type Time = int

  datatype Option<+T> = None | Some(value: T)

  /** A content version. sha256 is read as collision free, so a version is its body behind a constructor. */
  datatype Version<+B> = Sha256(body: B)

  /** What `lock()` hands out: the token and the fence allocated for it. */
  datatype Lease = Lease(key: Key, token: Token, fence: nat)

  datatype Precondition<+B> =
    | CreateOnly
    | Overwrite(expected: Version<B>, lease: Lease)

  datatype ErrorKind =
    | Permission
    | Network
    | Corruption
    | ScanFailure
    | InvalidArgument
    | Busy
    | TimeoutAfterCommit
    | ConflictUnknown
    | SecretBlocked

  datatype StaleReason = Unspecified | Fence

  datatype WriteResult<+B> =
    | Ok(newVersion: Version<B>)
    | Stale(current: Option<Version<B>>, reason: StaleReason)
    | Exists(existing: Version<B>)
    | Error(kind: ErrorKind)

  datatype CommitClass = Committed | DefinitelyNotCommitted | OutcomeUnknown

  function CommitClassOf<B>(r: WriteResult<B>): CommitClass {
    match r
    case Ok(_) => Committed
    case Stale(_, _) => DefinitelyNotCommitted
    case Exists(_) => DefinitelyNotCommitted
    case Error(kind) =>
      if kind == TimeoutAfterCommit || kind == ConflictUnknown then OutcomeUnknown else DefinitelyNotCommitted
  }

  function VersionOf<B>(value: Option<B>): Option<Version<B>> {
    match value
    case None => None
    case Some(b) => Some(Sha256(b))
  }

  function Max(a: nat, b: nat): nat {
    if a < b then b else a
  }
}
