/**
 * The identity-provider side (`ClerkService`): reading the provider's user
 * object into the store's user-data shape, and the checks `verify_jwt_token`
 * makes around token decoding. Decoding itself and the HTTP fetch of a user
 * are outside this model and enter as function parameters.
 */
module ClerkService {
  import opened Common

  /** One entry of the provider's `email_addresses` list. */
  datatype EmailAddress = EmailAddress(id: Option<string>, emailAddress: Option<string>)

  /** The provider's user object, as far as `extract_user_data` reads it. */
  datatype ClerkUser = ClerkUser(
    id: Option<string>,
    primaryEmailAddressId: Option<string>,
    emailAddresses: seq<EmailAddress>,
    firstName: Option<string>,
    lastName: Option<string>,
    imageUrl: Option<string>,
    lastSignInAt: Option<Time>)

  /** The dictionary `extract_user_data` returns. */
  datatype ExtractedUser = ExtractedUser(
    clerkId: Option<string>,
    email: string,
    firstName: Option<string>,
    lastName: Option<string>,
    imageUrl: Option<string>,
    lastSignInAt: Option<Time>)

  /** A decoded token payload; only the `sub` claim is consulted. */
  datatype Claims = Claims(sub: Option<string>)

  /** Position of the first address whose `id` equals the primary address id (None equals None, as in Python). */
  function PrimaryIndex(addresses: seq<EmailAddress>, primaryId: Option<string>): (r: Option<nat>)
    ensures r.Some? ==> r.value < |addresses| && addresses[r.value].id == primaryId
    ensures r.Some? ==> forall j :: 0 <= j < r.value ==> addresses[j].id != primaryId
    ensures r.None? <==> forall j :: 0 <= j < |addresses| ==> addresses[j].id != primaryId
  {
    if |addresses| == 0 then None
    else if addresses[0].id == primaryId then Some(0)
    else match PrimaryIndex(addresses[1..], primaryId)
      case None => None
      case Some(k) => Some(k + 1)
  }

  /** The first address carrying the primary id is the one PrimaryIndex finds. */
  lemma PrimaryIndexIsFirst(addresses: seq<EmailAddress>, primaryId: Option<string>, i: nat)
    requires i < |addresses| && addresses[i].id == primaryId
    requires forall j :: 0 <= j < i ==> addresses[j].id != primaryId
    ensures PrimaryIndex(addresses, primaryId) == Some(i)
  {
  }

  /**
   * What `extract_user_data` returns: the first address matching the primary
   * id, falling back to the first address when that yields no e-mail, and ""
   * when neither does; the other fields are copied.
   */
  function Extracted(cu: ClerkUser): (d: ExtractedUser)
    ensures d.clerkId == cu.id && d.firstName == cu.firstName && d.lastName == cu.lastName
    ensures d.imageUrl == cu.imageUrl && d.lastSignInAt == cu.lastSignInAt
    ensures forall i :: 0 <= i < |cu.emailAddresses| && cu.emailAddresses[i].id == cu.primaryEmailAddressId &&
                        (forall j :: 0 <= j < i ==> cu.emailAddresses[j].id != cu.primaryEmailAddressId) &&
                        Truthy(cu.emailAddresses[i].emailAddress) ==>
                          d.email == cu.emailAddresses[i].emailAddress.value
    ensures (forall j :: 0 <= j < |cu.emailAddresses| ==> cu.emailAddresses[j].id != cu.primaryEmailAddressId) &&
            |cu.emailAddresses| > 0 ==>
              d.email == (if Truthy(cu.emailAddresses[0].emailAddress) then cu.emailAddresses[0].emailAddress.value else "")
    ensures |cu.emailAddresses| == 0 ==> d.email == ""
    ensures d.email != "" ==> exists i :: 0 <= i < |cu.emailAddresses| && cu.emailAddresses[i].emailAddress == Some(d.email)
  {
    var addresses := cu.emailAddresses;
    var found := PrimaryIndex(addresses, cu.primaryEmailAddressId);
    var primary := if found.Some? then addresses[found.value].emailAddress else None;
    var chosen := if !Truthy(primary) && |addresses| > 0 then addresses[0].emailAddress else primary;
    assert forall i :: (&& 0 <= i < |addresses| && addresses[i].id == cu.primaryEmailAddressId
                        && (forall j :: 0 <= j < i ==> addresses[j].id != cu.primaryEmailAddressId)) ==> found == Some(i) by {
      forall i | 0 <= i < |addresses| && addresses[i].id == cu.primaryEmailAddressId &&
                 (forall j :: 0 <= j < i ==> addresses[j].id != cu.primaryEmailAddressId)
        ensures found == Some(i)
      {
        PrimaryIndexIsFirst(addresses, cu.primaryEmailAddressId, i);
      }
    }
    ExtractedUser(cu.id, if Truthy(chosen) then chosen.value else "", cu.firstName, cu.lastName, cu.imageUrl, cu.lastSignInAt)
  }

  /** A primary address without an e-mail falls back to the first address, as a missing primary address does. */
  lemma EmptyPrimaryFallsBack(cu: ClerkUser)
    requires PrimaryIndex(cu.emailAddresses, cu.primaryEmailAddressId).Some?
    requires !Truthy(cu.emailAddresses[PrimaryIndex(cu.emailAddresses, cu.primaryEmailAddressId).value].emailAddress)
    ensures Extracted(cu).email ==
            (if Truthy(cu.emailAddresses[0].emailAddress) then cu.emailAddresses[0].emailAddress.value else "")
  {
  }

  /** `extract_user_data`: scans the address list for the primary id, stopping at the first match. */
  method ExtractUserData(cu: ClerkUser) returns (d: ExtractedUser)
    ensures d == Extracted(cu)
  {
    var addresses := cu.emailAddresses;
    var primary: Option<string> := None;
    var i := 0;
    while i < |addresses|
      invariant 0 <= i <= |addresses|
      invariant primary.None?
      invariant forall j :: 0 <= j < i ==> addresses[j].id != cu.primaryEmailAddressId
    {
      if addresses[i].id == cu.primaryEmailAddressId {
        PrimaryIndexIsFirst(addresses, cu.primaryEmailAddressId, i);
        primary := addresses[i].emailAddress;
        break;
      }
      i := i + 1;
    }
    assert primary == match PrimaryIndex(addresses, cu.primaryEmailAddressId)
                      case Some(k) => addresses[k].emailAddress
                      case None => None;
    if !Truthy(primary) && |addresses| > 0 {
      primary := addresses[0].emailAddress;
    }
    d := ExtractedUser(cu.id, if Truthy(primary) then primary.value else "", cu.firstName, cu.lastName, cu.imageUrl,
                       cu.lastSignInAt);
  }

  /**
   * `verify_jwt_token`: an empty token, an undecodable one (`decode` yields
   * None) and a payload without a non-empty `sub` are all rejected; otherwise
   * the payload itself is returned.
   */
  function VerifyJwtToken(token: string, decode: string -> Option<Claims>): (r: Option<Claims>)
    ensures r.Some? <==> token != "" && decode(token).Some? && Truthy(decode(token).value.sub)
    ensures r.Some? ==> r == decode(token)
  {
    if token == "" then None
    else match decode(token)
      case None => None
      case Some(payload) => if Truthy(payload.sub) then Some(payload) else None
  }
}
