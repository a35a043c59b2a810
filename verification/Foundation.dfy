/** Values shared by every modelled component. */
module Foundation {

  datatype Option<+T> = None | Some(value: T)

  /** The error codes of the foundation layer; messages and recovery hints are not modelled. */
  datatype ErrorCode =
    | InvalidArgument
    | SyntaxError
    | ValidationError
    | InvalidEnvironment
    | NotFound
    | PermissionDenied
    | TooLarge
    | IoError
    | DurabilityUncertain
    | Unsupported
    | Cancelled

  datatype Result<+T> = Success(value: T) | Failure(error: ErrorCode)

  /** Text handed on as a C string must not hold a null byte. */
  predicate HasNul(s: string) {
    '\0' in s
  }

  type Byte = b: int | 0 <= b < 256

  type Bytes = seq<Byte>

  /** The bytes of a text whose characters stand for one byte each. */
  function BytesOf(text: string): (bytes: Bytes)
    ensures |bytes| == |text| && forall i :: 0 <= i < |text| ==> bytes[i] == text[i] as int % 256
  {
    seq(|text|, i requires 0 <= i < |text| => text[i] as int % 256)
  }

  const U64_MAX: nat := 0xFFFF_FFFF_FFFF_FFFF

  type U64 = n: int | 0 <= n <= U64_MAX

  /**
   A token for a request that stays once it is made: it is seen from some look on, or never.
   */
  class CancellationToken {
    const requestedAfter: Option<nat>
    var polls: nat

    constructor (requestedAfter: Option<nat>)
      ensures this.requestedAfter == requestedAfter && polls == 0 && Quiet()
    {
      this.requestedAfter, polls := requestedAfter, 0;
    }

    /** No look has seen the request so far. */
    predicate Quiet()
      reads this
    {
      requestedAfter.None? || polls <= requestedAfter.value
    }

    method IsCancellationRequested() returns (requested: bool)
      modifies this
      ensures polls == old(polls) + 1 && requested == !Quiet()
      ensures !old(Quiet()) ==> requested
    {
      requested := requestedAfter.Some? && polls >= requestedAfter.value;
      polls := polls + 1;
    }
  }
}
