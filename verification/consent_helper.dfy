/** `SetClaimsPrincipalAndForceConsentForAuthoriseRequest`: before an ID token is
    issued, the session's claims get a sharing-expiry claim and exactly the
    current arrangement-id claim, and the client's consent screen is switched off. */
module ConsentHelper {
  import opened Wrappers
  import Seqs
  import Decimal

  /** Claim type of the sharing expiry (a standard-claims constant of the identity server). */
  const ExpiryClaimType: string := "exp"
  /** Claim type of the CDR arrangement id. */
  const ArrangementIdClaimType: string := "cdr_arrangement_id"
  /** `ClaimValueTypes.Integer`. */
  const IntegerValueType: string := "http://www.w3.org/2001/XMLSchema#integer"
  /** `ClaimValueTypes.String`, the value type a claim gets when none is given. */
  const StringValueType: string := "http://www.w3.org/2001/XMLSchema#string"

  datatype Claim = Claim(claimType: string, value: string, valueType: string)

  /** The claims identity of the request's subject. */
  datatype Identity = Identity(isAuthenticated: bool, claims: seq<Claim>)

  /** The parts of the validated authorise request this helper reads or writes:
      the client's consent flag and the subject's claims identity, if any. */
  datatype AuthorizeRequest = AuthorizeRequest(requireConsent: bool, identity: Option<Identity>)

  /** ASCII upper-casing, the case mapping used for ordinal case-insensitive comparison. */
  function UpperAscii(c: char): char
  {
    if 'a' <= c <= 'z' then (c as int - 32) as char else c
  }

  /** Ordinal comparison ignoring case. */
  predicate EqualsIgnoreCase(a: string, b: string)
  {
    |a| == |b| && forall i :: 0 <= i < |a| ==> UpperAscii(a[i]) == UpperAscii(b[i])
  }

  predicate IsArrangementClaim(c: Claim)
  {
    EqualsIgnoreCase(c.claimType, ArrangementIdClaimType)
  }

  predicate IsExpiryClaim(c: Claim)
  {
    c.claimType == ExpiryClaimType
  }

  /** `string.IsNullOrEmpty` negated. */
  predicate HasValue(s: Option<string>)
  {
    s.Some? && |s.value| > 0
  }

  /** The expiry claim for a sharing duration at time `now` (Unix seconds). */
  function ExpiryClaim(sharingDurationSeconds: int, now: int): (c: Claim)
    ensures IsExpiryClaim(c) && c.valueType == IntegerValueType
    ensures Decimal.Canonical(c.value)
    ensures sharingDurationSeconds == 0 ==> c.value == "0"
    ensures sharingDurationSeconds != 0 ==>
              Decimal.ParseInt(c.value) == Some(now + sharingDurationSeconds)
  {
    Decimal.IntRoundTrip(now + sharingDurationSeconds);
    var value := if sharingDurationSeconds == 0 then "0"
                 else Decimal.IntToString(now + sharingDurationSeconds);
    Claim(ExpiryClaimType, value, IntegerValueType)
  }

  function ArrangementClaim(arrangementId: string): Claim
  {
    Claim(ArrangementIdClaimType, arrangementId, StringValueType)
  }

  /** The claims with the first arrangement-id claim, if any, taken out in place. */
  function WithoutFirstArrangement(claims: seq<Claim>): seq<Claim>
  {
    match Seqs.FirstIndex(claims, IsArrangementClaim)
    case None => claims
    case Some(i) => Seqs.RemoveAt(claims, i)
  }

  /** The claim list of an authenticated identity after the helper ran. */
  function UpdateClaims(claims: seq<Claim>, sharingDurationSeconds: int,
                        arrangementId: Option<string>, now: int): (r: seq<Claim>)
    ensures |r| >= 1
    ensures HasValue(arrangementId) ==> r[|r| - 1] == ArrangementClaim(arrangementId.value)
    ensures !HasValue(arrangementId) ==> r[|r| - 1] == ExpiryClaim(sharingDurationSeconds, now)
  {
    var withExpiry := claims + [ExpiryClaim(sharingDurationSeconds, now)];
    var withoutArrangement :=
      match Seqs.FirstIndex(withExpiry, IsArrangementClaim)
      case None => withExpiry
      case Some(i) => Seqs.RemoveAt(withExpiry, i);
    withoutArrangement + (if HasValue(arrangementId) then [ArrangementClaim(arrangementId.value)] else [])
  }

  /** The helper itself; `now` stands for the current UTC time in Unix seconds. */
  function SetClaimsPrincipalAndForceConsent(request: AuthorizeRequest, sharingDurationSeconds: int,
                                             arrangementId: Option<string>, now: int)
    : (r: AuthorizeRequest)
    ensures !r.requireConsent
    ensures request.identity.None? || !request.identity.value.isAuthenticated ==>
              r.identity == request.identity
    ensures request.identity.Some? && request.identity.value.isAuthenticated ==>
              r.identity == Some(Identity(true, UpdateClaims(request.identity.value.claims,
                                                             sharingDurationSeconds, arrangementId, now)))
  {
    if request.identity.Some? && request.identity.value.isAuthenticated then
      var identity := request.identity.value;
      AuthorizeRequest(false, Some(identity.(claims := UpdateClaims(identity.claims, sharingDurationSeconds,
                                                                     arrangementId, now))))
    else
      request.(requireConsent := false)
  }

  lemma ExpiryIsNotArrangement(c: Claim)
    requires IsExpiryClaim(c)
    ensures !IsArrangementClaim(c)
  {
  }

  lemma NewArrangementClaimMatches(arrangementId: string)
    ensures IsArrangementClaim(ArrangementClaim(arrangementId))
    ensures !IsExpiryClaim(ArrangementClaim(arrangementId))
  {
  }

  /** Frame: for any kind of claim that is never an arrangement-id claim, the
      claims of that kind are the old ones in their old order, followed by the
      new expiry claim if it is of that kind. */
  lemma {:induction false} UpdateFrame(claims: seq<Claim>, sharingDurationSeconds: int,
                                       arrangementId: Option<string>, now: int, q: Claim -> bool)
    requires forall c :: IsArrangementClaim(c) ==> !q(c)
    ensures var e := ExpiryClaim(sharingDurationSeconds, now);
            Seqs.Filter(UpdateClaims(claims, sharingDurationSeconds, arrangementId, now), q)
              == Seqs.Filter(claims, q) + Seqs.Filter([e], q)
  {
    var e := ExpiryClaim(sharingDurationSeconds, now);
    var withExpiry := claims + [e];
    Seqs.FilterConcat(claims, [e], q);
    var withoutArrangement :=
      match Seqs.FirstIndex(withExpiry, IsArrangementClaim)
      case None => withExpiry
      case Some(i) => Seqs.RemoveAt(withExpiry, i);
    var first := Seqs.FirstIndex(withExpiry, IsArrangementClaim);
    if first.Some? {
      Seqs.FilterRemoveRejected(withExpiry, first.value, q);
    }
    var added := if HasValue(arrangementId) then [ArrangementClaim(arrangementId.value)] else [];
    Seqs.FilterConcat(withoutArrangement, added, q);
    if HasValue(arrangementId) {
      NewArrangementClaimMatches(arrangementId.value);
      assert Seqs.Filter(added, q) == [];
    }
  }

  /** Every claim other than an arrangement-id claim survives, in order, and the
      expiry claim is appended after them. */
  lemma OtherClaimsKeepOrder(claims: seq<Claim>, sharingDurationSeconds: int,
                             arrangementId: Option<string>, now: int)
    ensures var other := (c: Claim) => !IsArrangementClaim(c);
            Seqs.Filter(UpdateClaims(claims, sharingDurationSeconds, arrangementId, now), other)
              == Seqs.Filter(claims, other) + [ExpiryClaim(sharingDurationSeconds, now)]
  {
    var other := (c: Claim) => !IsArrangementClaim(c);
    var e := ExpiryClaim(sharingDurationSeconds, now);
    UpdateFrame(claims, sharingDurationSeconds, arrangementId, now, other);
    ExpiryIsNotArrangement(e);
    assert Seqs.Filter([e], other) == [e];
  }

  /** Expiry claims are never removed: each authenticated call adds exactly one. */
  lemma ExpiryClaimsAccumulate(claims: seq<Claim>, sharingDurationSeconds: int,
                               arrangementId: Option<string>, now: int)
    ensures Seqs.Count(UpdateClaims(claims, sharingDurationSeconds, arrangementId, now), IsExpiryClaim)
              == Seqs.Count(claims, IsExpiryClaim) + 1
  {
    var e := ExpiryClaim(sharingDurationSeconds, now);
    forall c | IsArrangementClaim(c)
      ensures !IsExpiryClaim(c)
    {
      if IsExpiryClaim(c) {
        ExpiryIsNotArrangement(c);
      }
    }
    UpdateFrame(claims, sharingDurationSeconds, arrangementId, now, IsExpiryClaim);
    assert Seqs.Filter([e], IsExpiryClaim) == [e];
  }

  /** Only the first arrangement-id claim (matched ignoring case) is removed, and
      the new one is appended exactly when an id is given. */
  lemma {:induction false} ArrangementClaimReplaced(claims: seq<Claim>, sharingDurationSeconds: int,
                                                    arrangementId: Option<string>, now: int)
    ensures var before := Seqs.Filter(claims, IsArrangementClaim);
            Seqs.Filter(UpdateClaims(claims, sharingDurationSeconds, arrangementId, now), IsArrangementClaim)
              == (if |before| == 0 then [] else before[1..])
                 + (if HasValue(arrangementId) then [ArrangementClaim(arrangementId.value)] else [])
  {
    var e := ExpiryClaim(sharingDurationSeconds, now);
    ExpiryIsNotArrangement(e);
    var withExpiry := claims + [e];
    Seqs.FilterConcat(claims, [e], IsArrangementClaim);
    assert Seqs.Filter([e], IsArrangementClaim) == [];
    assert Seqs.Filter(withExpiry, IsArrangementClaim) == Seqs.Filter(claims, IsArrangementClaim);
    var withoutArrangement :=
      match Seqs.FirstIndex(withExpiry, IsArrangementClaim)
      case None => withExpiry
      case Some(i) => Seqs.RemoveAt(withExpiry, i);
    var first := Seqs.FirstIndex(withExpiry, IsArrangementClaim);
    if first.Some? {
      Seqs.FilterRemoveFirst(withExpiry, first.value, IsArrangementClaim);
    } else {
      Seqs.FilterNone(withExpiry, IsArrangementClaim);
    }
    var added := if HasValue(arrangementId) then [ArrangementClaim(arrangementId.value)] else [];
    Seqs.FilterConcat(withoutArrangement, added, IsArrangementClaim);
    if HasValue(arrangementId) {
      NewArrangementClaimMatches(arrangementId.value);
      assert Seqs.Filter(added, IsArrangementClaim) == added;
    }
  }

  /** With at most one arrangement-id claim before, there is afterwards exactly
      one, holding the new id, when an id is given, and none otherwise. */
  lemma SingleArrangementClaim(claims: seq<Claim>, sharingDurationSeconds: int,
                               arrangementId: Option<string>, now: int)
    requires Seqs.Count(claims, IsArrangementClaim) <= 1
    ensures Seqs.Filter(UpdateClaims(claims, sharingDurationSeconds, arrangementId, now), IsArrangementClaim)
              == if HasValue(arrangementId) then [ArrangementClaim(arrangementId.value)] else []
  {
    ArrangementClaimReplaced(claims, sharingDurationSeconds, arrangementId, now);
  }

  /** The whole list afterwards: the original claims with their first
      arrangement-id claim removed in place, then the expiry claim, then the new
      arrangement-id claim when an id is given. The expiry claim just added is
      never the one removed. */
  lemma UpdateClaimsShape(claims: seq<Claim>, sharingDurationSeconds: int,
                          arrangementId: Option<string>, now: int)
    ensures UpdateClaims(claims, sharingDurationSeconds, arrangementId, now)
              == WithoutFirstArrangement(claims) + [ExpiryClaim(sharingDurationSeconds, now)]
                 + (if HasValue(arrangementId) then [ArrangementClaim(arrangementId.value)] else [])
  {
    var e := ExpiryClaim(sharingDurationSeconds, now);
    ExpiryIsNotArrangement(e);
    var withExpiry := claims + [e];
    var inOriginal := Seqs.FirstIndex(claims, IsArrangementClaim);
    var inExtended := Seqs.FirstIndex(withExpiry, IsArrangementClaim);
    if inOriginal.Some? {
      var i := inOriginal.value;
      assert inExtended == Some(i) by {
        assert withExpiry[i] == claims[i];
        assert forall j :: 0 <= j < i ==> withExpiry[j] == claims[j];
      }
      assert Seqs.RemoveAt(withExpiry, i) == Seqs.RemoveAt(claims, i) + [e];
    } else {
      assert forall j :: 0 <= j < |withExpiry| ==> !IsArrangementClaim(withExpiry[j]) by {
        forall j | 0 <= j < |withExpiry|
          ensures !IsArrangementClaim(withExpiry[j])
        {
          if j < |claims| {
            assert withExpiry[j] == claims[j];
          }
        }
      }
      assert inExtended.None?;
    }
  }
}
