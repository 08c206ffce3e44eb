/**
 * The claim decision of the IAM service's ensureHasClaim: argument validation
 * in a fixed order, then an introspection request for all claims of the
 * identity, then a membership test of the claim name against the keys of the
 * response.
 *
 * The introspection request is abstracted as a function from the identity's
 * token to the keys of the response (Null or Undefined for a missing
 * response); a thrown error is an Outcome other than Ok.
 */
module IamService {

  /** A JavaScript value that may be null or undefined. */
  datatype Nullable<T> = Null | Undefined | Value(value: T)

  datatype Identity = Identity(token: string)

  datatype Outcome =
    | Ok
    | BadRequest(message: string)
    | Forbidden(message: string)
      /** Reading `token` of an undefined identity while building the request. */
    | TypeError

  const NoIdentityMessage := "No valid identity given"
  const NoClaimNameMessage := "No valid claimName given"
  const ClaimNotHeldMessage := "Identity does not have the requested claim."

  /** `keys.includes(name)`. */
  function Includes(keys: seq<string>, name: string): (r: bool)
    ensures r <==> name in keys
  {
    if keys == [] then false else keys[0] == name || Includes(keys[1..], name)
  }

  /** The keys of the introspection response; a missing response has none. */
  function ResponseKeys(response: Nullable<seq<string>>): (keys: seq<string>)
    ensures response.Value? ==> keys == response.value
    ensures !response.Value? ==> keys == []
  {
    if response.Value? then response.value else []
  }

  /** Only `null` and `''` are rejected as claim names; `undefined` passes. */
  predicate ValidClaimName(claimName: Nullable<string>)
  {
    !claimName.Null? && claimName != Value("")
  }

  function EnsureHasClaim(identity: Nullable<Identity>, claimName: Nullable<string>,
                          requestAllClaims: string -> Nullable<seq<string>>): (r: Outcome)
    // the identity check comes first and uses `=== null`
    ensures identity.Null? ==> r == BadRequest(NoIdentityMessage)
    ensures !identity.Null? && !ValidClaimName(claimName) ==> r == BadRequest(NoClaimNameMessage)
    ensures r.BadRequest? <==> identity.Null? || !ValidClaimName(claimName)
    // an undefined identity passes validation and fails when the request is built
    ensures identity.Undefined? && ValidClaimName(claimName) ==> r == TypeError
    // with valid arguments: success exactly when the claim name is a response key
    ensures identity.Value? && ValidClaimName(claimName) ==>
              (r == Ok <==> claimName.Value? && claimName.value in ResponseKeys(requestAllClaims(identity.value.token)))
    ensures identity.Value? && ValidClaimName(claimName) && r != Ok ==> r == Forbidden(ClaimNotHeldMessage)
  {
    if identity.Null? then
      BadRequest(NoIdentityMessage)
    else if claimName.Null? || claimName == Value("") then
      BadRequest(NoClaimNameMessage)
    else if identity.Undefined? then
      TypeError
    else
      var response := requestAllClaims(identity.value.token);
      var responseKeys := ResponseKeys(response);
      // `includes` of undefined among string keys is false
      var hasClaim := claimName.Value? && Includes(responseKeys, claimName.value);
      if !hasClaim then Forbidden(ClaimNotHeldMessage) else Ok
  }

  /** Both validations, and the undefined-identity failure, happen before any request: the authority's answer does not matter. */
  lemma ValidationPrecedesRequest(identity: Nullable<Identity>, claimName: Nullable<string>,
                                  authority1: string -> Nullable<seq<string>>,
                                  authority2: string -> Nullable<seq<string>>)
    requires !identity.Value? || !ValidClaimName(claimName)
    ensures EnsureHasClaim(identity, claimName, authority1) == EnsureHasClaim(identity, claimName, authority2)
    ensures EnsureHasClaim(identity, claimName, authority1) != Ok
  {
  }

  /** A null or undefined introspection response always yields Forbidden. */
  lemma MissingResponseIsForbidden(identity: Identity, claimName: string,
                                   requestAllClaims: string -> Nullable<seq<string>>)
    requires claimName != ""
    requires !requestAllClaims(identity.token).Value?
    ensures EnsureHasClaim(Value(identity), Value(claimName), requestAllClaims) == Forbidden(ClaimNotHeldMessage)
  {
  }

  /** An undefined claim name passes validation but is never among the response's keys. */
  lemma UndefinedClaimNameIsForbidden(identity: Identity, requestAllClaims: string -> Nullable<seq<string>>)
    ensures EnsureHasClaim(Value(identity), Undefined, requestAllClaims) == Forbidden(ClaimNotHeldMessage)
  {
  }
}
