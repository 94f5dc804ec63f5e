/**
 The AD-group authorization handler: for one requirement it obtains a Graph
 token for the requirement's scopes, reads the caller's group memberships
 and marks the requirement as succeeded when the configured group is among
 them.

 Token acquisition and the Graph `me/memberOf` request are function
 parameters: the token returned for a list of scopes, and the memberships
 returned for a token.
 */
module ADGroupAuthorization {
  import opened NullableRef

  /** ADGroupRequirement: the Graph scopes to request and the id of the group required. */
  datatype ADGroupRequirement = ADGroupRequirement(scopes: seq<string>, group: string)

  /** A directory object from the caller's memberships; its id may be null. */
  datatype DirectoryObject = DirectoryObject(id: Nullable<string>)

  /**
   What handling one requirement does to the authorization context:
   `Succeeded` when `Succeed` was called, `Untouched` when nothing was
   called, `Error` when the request faulted with an exception. The
   exception is thrown inside the Graph authentication delegate and
   reaches the handler's caller wrapped in an `AggregateException` by
   `.Result`; `message` is the inner exception's message.
   */
  datatype Outcome = Succeeded | Untouched | Error(message: string)

  /** The exception message raised when the Graph request is sent without a token. */
  const InvalidAuthorizationContext: string := "Invalid authorization context"

  /** The result of handling one requirement, with the scopes used to request the token. */
  datatype Handling = Handling(requestedScopes: seq<string>, membershipsRead: bool, outcome: Outcome)

  type TokenProvider = seq<string> -> Nullable<string>
  type MembershipSource = string -> seq<DirectoryObject>

  /** `!string.IsNullOrEmpty(accessToken)`: the token can be sent as a bearer header. */
  predicate IsUsableToken(token: Nullable<string>)
  {
    token.NonNull? && |token.value| > 0
  }

  /** `requirement.Group.Equals(group.Id)`: a null id never matches. */
  predicate Matches(group: string, g: DirectoryObject)
  {
    g.id == NonNull(group)
  }

  /** The caller's memberships include the required group. */
  ghost predicate IsMember(groups: seq<DirectoryObject>, group: string)
  {
    exists g :: g in groups && Matches(group, g)
  }

  /**
   The `foreach` over the memberships. `result` is the flag carried so far:
   a match sets it, nothing ever clears it, and the whole list is scanned.
   */
  function ScanMemberships(groups: seq<DirectoryObject>, group: string, result: bool): (r: bool)
    ensures r <==> result || IsMember(groups, group)
    decreases |groups|
  {
    if |groups| == 0 then
      result
    else
      assert groups == [groups[0]] + groups[1..];
      var result' := if Matches(group, groups[0]) then true else result;
      ScanMemberships(groups[1..], group, result')
  }

  /**
   HandleRequirementAsync. An unusable token makes the Graph request throw
   before any membership is read; otherwise `Succeed` is called exactly when
   the scan finds the required group, and nothing is called when it does not.
   */
  function HandleRequirement(requirement: ADGroupRequirement, tokens: TokenProvider, memberOf: MembershipSource): (h: Handling)
    ensures h.requestedScopes == requirement.scopes
    ensures h.outcome.Error? <==> !IsUsableToken(tokens(requirement.scopes))
    ensures h.outcome.Error? ==> h.outcome.message == InvalidAuthorizationContext && !h.membershipsRead
    ensures h.outcome == Succeeded <==>
              var token := tokens(requirement.scopes);
              IsUsableToken(token) && IsMember(memberOf(token.value), requirement.group)
    ensures h.outcome == Untouched <==>
              var token := tokens(requirement.scopes);
              IsUsableToken(token) && !IsMember(memberOf(token.value), requirement.group)
  {
    var accessToken := tokens(requirement.scopes);
    if !IsUsableToken(accessToken) then
      Handling(requirement.scopes, false, Error(InvalidAuthorizationContext))
    else
      var groups := memberOf(accessToken.value);
      var result := ScanMemberships(groups, requirement.group, false);
      Handling(requirement.scopes, true, if result then Succeeded else Untouched)
  }

  /** The decision depends only on which objects are listed, not on their order or repetition. */
  lemma ScanIgnoresOrderAndDuplicates(a: seq<DirectoryObject>, b: seq<DirectoryObject>, group: string)
    requires forall g :: g in a <==> g in b
    ensures ScanMemberships(a, group, false) == ScanMemberships(b, group, false)
  {
  }

  /** An empty membership list never leads to success. */
  lemma EmptyMembershipsNeverSucceed(requirement: ADGroupRequirement, tokens: TokenProvider, memberOf: MembershipSource)
    requires IsUsableToken(tokens(requirement.scopes)) ==> memberOf(tokens(requirement.scopes).value) == []
    ensures HandleRequirement(requirement, tokens, memberOf).outcome != Succeeded
  {
  }

  /** Listing more groups never withdraws a success. */
  lemma ScanMonotone(a: seq<DirectoryObject>, extra: seq<DirectoryObject>, group: string)
    requires ScanMemberships(a, group, false)
    ensures ScanMemberships(a + extra, group, false)
    ensures ScanMemberships(extra + a, group, false)
  {
    var g :| g in a && Matches(group, g);
    assert g in a + extra && g in extra + a;
  }

  /** A success was granted only after a membership with the required id was read for this token. */
  lemma SuccessRequiresObservedGroup(requirement: ADGroupRequirement, tokens: TokenProvider, memberOf: MembershipSource)
    requires HandleRequirement(requirement, tokens, memberOf).outcome == Succeeded
    ensures HandleRequirement(requirement, tokens, memberOf).membershipsRead
    ensures exists k :: 0 <= k < |memberOf(tokens(requirement.scopes).value)| &&
              memberOf(tokens(requirement.scopes).value)[k].id == NonNull(requirement.group)
  {
    var groups := memberOf(tokens(requirement.scopes).value);
    var g :| g in groups && Matches(requirement.group, g);
    var k :| 0 <= k < |groups| && groups[k] == g;
  }

}
