/** The private object store: objects are created once, compared, and deleted only against their hash. */
module ObjectStore {
  import opened Wrappers
  import opened ExportRows

  const MAX_PRIVATE_JSON_BYTES := 20 * 1024 * 1024
  const MAX_EXPORT_BYTES := 50 * 1024 * 1024

  datatype StorageError = TransportFailed | Refused | ContentDiffers | ReadFailed | FileInvalid | QuotaRefused | SettlementFailed

  /** What may happen to a creating request on its way. */
  datatype Fault = NoFault | LostBefore | LostAfter | ServerError

  datatype PostResult = Created | Conflict | NoAnswer | OtherStatus

  datatype Reservation = NotReserved | Reserved | Committed | Uncertain

  // ----- one object, before and after a request -----

  function Lookup(objects: map<string, Bytes>, key: string): Option<Bytes> {
    if key in objects then Some(objects[key]) else None
  }

  predicate SameElsewhere(a: map<string, Bytes>, b: map<string, Bytes>, key: string) {
    a - {key} == b - {key}
  }

  /** The object after a creating request: an existing one is never replaced. */
  function AfterPost(stored: Option<Bytes>, content: Bytes, fault: Fault): Option<Bytes> {
    if fault in {NoFault, LostAfter} && stored.None? then Some(content) else stored
  }

  predicate Uploadable(content: Bytes, sha: Hash) {
    0 < |content| <= MAX_EXPORT_BYTES && |sha(content)| == 32
  }

  predicate SameHash(stored: Bytes, content: Bytes, sha: Hash) {
    |stored| <= MAX_EXPORT_BYTES && sha(stored) == sha(content)
  }

  /**
   The quota reservation after a call. settles tells whether the request that commits it, or marks it as
   uncertain, succeeds; when it does not, the reservation stays as it is.
   */
  function Settlement<T>(r: Result<T, StorageError>, settles: bool): Reservation {
    if r.Ok? then Committed
    else if r.error in {FileInvalid, QuotaRefused} then NotReserved
    else if settles && r.error != SettlementFailed then Uncertain
    else Reserved
  }

  /** put_file_once: the object afterwards, and what is returned or raised. */
  function PutFile(stored: Option<Bytes>, content: Bytes, quotaAllows: bool, fault: Fault, readable: bool, settles: bool,
                   sha: Hash): (Option<Bytes>, Result<bool, StorageError>)
  {
    if !Uploadable(content, sha) then (stored, Err(FileInvalid))
    else if !quotaAllows then (stored, Err(QuotaRefused))
    else
      (AfterPost(stored, content, fault),
       match fault
       case LostBefore => Err(TransportFailed)
       case LostAfter => Err(TransportFailed)
       case ServerError => Err(Refused)
       case NoFault =>
         if stored.Some? && !readable then Err(ReadFailed)
         else if stored.Some? && !SameHash(stored.value, content, sha) then Err(ContentDiffers)
         else if settles then Ok(stored.None?)
         else Err(SettlementFailed))
  }

  /** delete_if_sha256 */
  function DeleteFile(stored: Option<Bytes>, expected: Bytes, readable: bool, fault: Fault, sha: Hash)
    : (Option<Bytes>, Result<bool, StorageError>)
  {
    if |expected| != 32 then (stored, Ok(false))
    else if !readable || stored.None? then (stored, Err(ReadFailed))
    else if |stored.value| > MAX_EXPORT_BYTES || sha(stored.value) != expected then (stored, Ok(false))
    else
      match fault
      case NoFault => (None, Ok(true))
      case LostAfter => (None, Err(TransportFailed))
      case _ => (stored, Err(TransportFailed))
  }

  class ObjectStorage {
    var objects: map<string, Bytes>
    var reservation: Reservation      // the quota reservation of the latest call
    const sha: Hash

    constructor (sha: Hash)
      ensures objects == map[] && this.sha == sha && reservation == NotReserved
    {
      this.sha := sha;
      objects := map[];
      reservation := NotReserved;
    }

    /** POST with x-upsert false: an existing object is never replaced. */
    method Post(key: string, content: Bytes, fault: Fault) returns (r: PostResult)
      modifies this`objects
      ensures Lookup(objects, key) == AfterPost(Lookup(old(objects), key), content, fault)
      ensures key in old(objects) ==> objects == old(objects)
      ensures objects == old(objects) || objects == old(objects)[key := content]
      ensures r == NoAnswer <==> fault == LostBefore || fault == LostAfter
      ensures r == Created <==> fault == NoFault && key !in old(objects)
      ensures r == Created ==> objects == old(objects)[key := content]
      ensures r == Conflict <==> fault == NoFault && key in old(objects)
    {
      if fault == LostBefore {
        return NoAnswer;
      }
      if fault == ServerError {
        return OtherStatus;
      }
      if key in objects {
        return if fault == LostAfter then NoAnswer else Conflict;
      }
      objects := objects[key := content];
      return if fault == LostAfter then NoAnswer else Created;
    }

    /**
     Creates the file, or finds the same hash already there; the result says which. Every error has one condition,
     in the order they are tested, and an object that is there is never replaced.
     */
    method PutFileOnce(key: string, content: Bytes, quotaAllows: bool, fault: Fault, readable: bool, settles: bool)
      returns (r: Result<bool, StorageError>)
      modifies this
      ensures r == Err(FileInvalid) <==> !(0 < |content| <= MAX_EXPORT_BYTES && |sha(content)| == 32)
      ensures r == Err(QuotaRefused) <==> 0 < |content| <= MAX_EXPORT_BYTES && |sha(content)| == 32 && !quotaAllows
      ensures 0 < |content| <= MAX_EXPORT_BYTES && |sha(content)| == 32 && quotaAllows ==>
                && (r == Err(TransportFailed) <==> fault == LostBefore || fault == LostAfter)
                && (r == Err(Refused) <==> fault == ServerError)
                && (r == Err(ReadFailed) <==> fault == NoFault && key in old(objects) && !readable)
                && (r == Err(ContentDiffers) <==>
                      && fault == NoFault && key in old(objects) && readable
                      && (|old(objects)[key]| > MAX_EXPORT_BYTES || sha(old(objects)[key]) != sha(content)))
                && (fault == NoFault && key !in old(objects) ==> r == if settles then Ok(true) else Err(SettlementFailed))
                && (r == Ok(false) <==>
                      && fault == NoFault && key in old(objects) && readable
                      && |old(objects)[key]| <= MAX_EXPORT_BYTES && sha(old(objects)[key]) == sha(content) && settles)
                && objects == (if key !in old(objects) && (fault == NoFault || fault == LostAfter)
                               then old(objects)[key := content] else old(objects))
      ensures reservation == Committed <==> r.Ok?
      ensures reservation == NotReserved <==> r == Err(FileInvalid) || r == Err(QuotaRefused)
      ensures reservation == Uncertain <==>
                r.Err? && r != Err(FileInvalid) && r != Err(QuotaRefused) && settles
      ensures (Lookup(objects, key), r) == PutFile(Lookup(old(objects), key), content, quotaAllows, fault, readable, settles,
                                                    sha)
      ensures SameElsewhere(objects, old(objects), key)
      ensures key in old(objects) ==> objects == old(objects)
      ensures objects == old(objects) || objects == old(objects)[key := content]
      ensures r == Ok(true) ==> key !in old(objects) && objects == old(objects)[key := content]
      ensures r == Ok(false) ==> key in old(objects) && sha(objects[key]) == sha(content)
      ensures r.Ok? ==> key in objects && sha(objects[key]) == sha(content) && |sha(content)| == 32 && |content| <= MAX_EXPORT_BYTES
      ensures |content| == 0 || |content| > MAX_EXPORT_BYTES || !quotaAllows ==> r.Err?
      ensures r == Err(FileInvalid) || r == Err(QuotaRefused) ==> objects == old(objects)
      ensures r == Err(SettlementFailed) ==> key in objects && sha(objects[key]) == sha(content)
      ensures reservation == Settlement(r, settles)
    {
      reservation := NotReserved;
      if !(0 < |content| <= MAX_EXPORT_BYTES) || |sha(content)| != 32 {
        return Err(FileInvalid);
      }
      if !quotaAllows {
        return Err(QuotaRefused);
      }
      reservation := Reserved;
      var answer := Post(key, content, fault);
      match answer {
        case Created =>
          r := Ok(true);
        case NoAnswer =>
          r := Err(TransportFailed);
        case OtherStatus =>
          r := Err(Refused);
        case Conflict =>
          if !readable {
            r := Err(ReadFailed);
          } else if |objects[key]| > MAX_EXPORT_BYTES || sha(objects[key]) != sha(content) {
            r := Err(ContentDiffers);
          } else {
            r := Ok(false);
          }
      }
      if r.Ok? {
        if settles {
          reservation := Committed;
        } else {
          r := Err(SettlementFailed);
        }
      } else if settles {
        reservation := Uncertain;
      }
    }

    /**
     An audit object: creating it and replaying the same bytes succeed, other bytes are refused, and every other
     error has one condition, in the order they are tested.
     */
    method PutJsonOnce(key: string, content: Bytes, quotaAllows: bool, fault: Fault, readable: bool, settles: bool)
      returns (r: Result<(), StorageError>)
      modifies this
      ensures r == Err(FileInvalid) <==> |content| > MAX_PRIVATE_JSON_BYTES
      ensures r == Err(QuotaRefused) <==> |content| <= MAX_PRIVATE_JSON_BYTES && !quotaAllows
      ensures |content| <= MAX_PRIVATE_JSON_BYTES && quotaAllows ==>
                && (r == Err(TransportFailed) <==> fault == LostBefore || fault == LostAfter)
                && (r == Err(Refused) <==> fault == ServerError)
                && (r == Err(ReadFailed) <==> fault == NoFault && key in old(objects) && !readable)
                && (r == Err(ContentDiffers) <==>
                      fault == NoFault && key in old(objects) && readable && old(objects)[key] != content)
                && (fault == NoFault && (key in old(objects) ==> readable && old(objects)[key] == content) ==>
                      r == if settles then Ok(()) else Err(SettlementFailed))
                && objects == (if key !in old(objects) && (fault == NoFault || fault == LostAfter)
                               then old(objects)[key := content] else old(objects))
      ensures r.Err? && r.error in {FileInvalid, QuotaRefused} ==> objects == old(objects)
      ensures r.Ok? ==> key in objects && objects[key] == content
      ensures r == Err(SettlementFailed) ==> key in objects && objects[key] == content
      ensures reservation == Committed <==> r.Ok?
      ensures reservation == NotReserved <==> r == Err(FileInvalid) || r == Err(QuotaRefused)
      ensures reservation == Uncertain <==>
                r.Err? && r != Err(FileInvalid) && r != Err(QuotaRefused) && settles
      ensures reservation == Settlement(r, settles)
    {
      reservation := NotReserved;
      if |content| > MAX_PRIVATE_JSON_BYTES {
        return Err(FileInvalid);
      }
      if !quotaAllows {
        return Err(QuotaRefused);
      }
      reservation := Reserved;
      var answer := Post(key, content, fault);
      r := Ok(());
      if answer == NoAnswer {
        r := Err(TransportFailed);
      } else if answer == OtherStatus {
        r := Err(Refused);
      } else if answer == Conflict {
        if !readable {
          r := Err(ReadFailed);
        } else if objects[key] != content {
          r := Err(ContentDiffers);
        }
      }
      if r.Ok? {
        if settles {
          reservation := Committed;
        } else {
          r := Err(SettlementFailed);
        }
      } else if settles {
        reservation := Uncertain;
      }
    }

    /** Deletes the object only while its hash is the expected one. */
    method DeleteIfSha256(key: string, expected: Bytes, readable: bool, fault: Fault) returns (r: Result<bool, StorageError>)
      modifies this`objects
      ensures |expected| != 32 ==> r == Ok(false)
      ensures |expected| == 32 ==>
                && (r == Err(ReadFailed) <==> !readable || key !in old(objects))
                && (readable && key in old(objects) ==>
                      if |old(objects)[key]| > MAX_EXPORT_BYTES || sha(old(objects)[key]) != expected then r == Ok(false)
                      else if fault == NoFault then r == Ok(true)
                      else r == Err(TransportFailed))
      ensures objects ==
                if |expected| == 32 && readable && key in old(objects) && |old(objects)[key]| <= MAX_EXPORT_BYTES
                   && sha(old(objects)[key]) == expected && (fault == NoFault || fault == LostAfter)
                then old(objects) - {key} else old(objects)
      ensures (Lookup(objects, key), r) == DeleteFile(Lookup(old(objects), key), expected, readable, fault, sha)
      ensures SameElsewhere(objects, old(objects), key)
      ensures objects == old(objects) || objects == old(objects) - {key}
      ensures objects != old(objects) ==> key in old(objects) && sha(old(objects)[key]) == expected
      ensures r == Ok(true) ==> key !in objects
      ensures r == Ok(true) ==> objects == old(objects) - {key}
      ensures r == Ok(false) ==> objects == old(objects)
      ensures r == Ok(false) ==>
                |expected| != 32
                || (key in old(objects)
                    && (|old(objects)[key]| > MAX_EXPORT_BYTES || sha(old(objects)[key]) != expected))
      ensures fault == NoFault && readable && key in old(objects) && |expected| == 32 ==>
                (r == Ok(true) <==> |old(objects)[key]| <= MAX_EXPORT_BYTES && sha(old(objects)[key]) == expected)
    {
      if |expected| != 32 {
        return Ok(false);
      }
      if !readable || key !in objects {
        return Err(ReadFailed);
      }
      if |objects[key]| > MAX_EXPORT_BYTES || sha(objects[key]) != expected {
        return Ok(false);
      }
      if fault == LostBefore || fault == ServerError {
        return Err(TransportFailed);
      }
      objects := objects - {key};
      return if fault == LostAfter then Err(TransportFailed) else Ok(true);
    }
  }
}
