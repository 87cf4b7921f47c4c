/** Optional values (the model of a C# reference that may be null) and results (a value, or the
    exception that a call lets propagate to its caller). */
module Wrappers {

  datatype Option<+T> = None | Some(value: T)

  datatype Result<+R, +E> = Success(value: R) | Failure(error: E)
}

/** The exceptions that escape the service's token and lookup operations. */
module Failures {

  datatype Failure =
    /** The configured `TokenSignKey` is null or empty, so building the signing key throws. */
    | MissingSigningKey
    /** The library refuses to sign with the key, for instance one shorter than its minimum key
        size (CreateToken throws an ArgumentOutOfRangeException). */
    | KeyRejected
    /** ReadToken was given null or the empty string (an ArgumentNullException). */
    | EmptyToken
    /** ReadToken was given a string that is not a compact JSON Web Token (an ArgumentException). */
    | MalformedToken
    /** `First` found no claim of the requested type (an InvalidOperationException). */
    | ClaimNotFound(claimType: string)
    /** `SingleOrDefault` found more than one matching row (an InvalidOperationException). */
    | MoreThanOneMatch
}
