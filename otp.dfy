/** The registration one-time passwords of src/services/otpRequests.service.ts
    over the table of src/providers/otpRequests.provider.ts: one code per
    email, overwritten when requested again and deleted once verified. */
module Otp {
  import opened Wrappers
  import opened JsText

  /** The code length when none is given. */
  const DEFAULT_OTP_LENGTH: nat := 6

  /** How long a code is meant to stay valid: ten minutes in milliseconds. */
  const OTP_LIFETIME_MS: int := 600_000

  /** `OtpType`: the registration kind and any other kind the table holds. */
  datatype OtpType = USER_EMAIL_REGISTRATION | OtherOtpType(name: string)

  datatype OtpRequest = OtpRequest(id: string, email: string, otpType: OtpType,
                                   otpCode: string, otpExpiresAt: int, updatedAt: int)

  /** The digit a draw of `Math.random()` in [0, 1) gives: floor(draw * 10). */
  function DrawDigit(draw: real): (d: nat)
    requires 0.0 <= draw < 1.0
    ensures d < 10 && d as real <= draw * 10.0 < d as real + 1.0
  {
    (draw * 10.0).Floor
  }

  /** `generateOTP(length)`: one decimal digit per loop round, from the draws
      the random source supplies. A length of 0 or less gives "". */
  method GenerateOtp(length: int, draws: seq<real>) returns (otp: string)
    requires length <= |draws|
    requires forall i :: 0 <= i < |draws| ==> 0.0 <= draws[i] < 1.0
    ensures |otp| == if length < 0 then 0 else length
    ensures AllDigits(otp)
    ensures forall i :: 0 <= i < |otp| ==> otp[i] == DigitChar(DrawDigit(draws[i]))
  {
    otp := "";
    var i := 0;
    while i < length
      invariant 0 <= i <= (if length < 0 then 0 else length)
      invariant |otp| == i
      invariant forall j :: 0 <= j < i ==> otp[j] == DigitChar(DrawDigit(draws[j]))
    {
      otp := otp + [DigitChar(DrawDigit(draws[i]))];
      i := i + 1;
    }
  }

  /** The registration request of `email` that `findFirst` returns: the first
      in table order with that email and the registration type. */
  function FindRegistration(requests: seq<OtpRequest>, email: string): (r: Option<nat>)
    ensures r.Some? ==> r.value < |requests| && requests[r.value].email == email
                        && requests[r.value].otpType == USER_EMAIL_REGISTRATION
    ensures r.Some? ==> forall j :: 0 <= j < r.value ==>
      !(requests[j].email == email && requests[j].otpType == USER_EMAIL_REGISTRATION)
    ensures r.None? ==> forall j :: 0 <= j < |requests| ==>
      !(requests[j].email == email && requests[j].otpType == USER_EMAIL_REGISTRATION)
  {
    if requests == [] then None
    else if requests[0].email == email && requests[0].otpType == USER_EMAIL_REGISTRATION then Some(0)
    else match FindRegistration(requests[1..], email)
      case None => None
      case Some(k) => Some(k + 1)
  }

  function IndexOfRequest(requests: seq<OtpRequest>, id: string): (r: Option<nat>)
    ensures r.Some? ==> r.value < |requests| && requests[r.value].id == id
    ensures r.None? ==> forall j :: 0 <= j < |requests| ==> requests[j].id != id
  {
    if requests == [] then None
    else if requests[0].id == id then Some(0)
    else match IndexOfRequest(requests[1..], id)
      case None => None
      case Some(k) => Some(k + 1)
  }

  ghost predicate UniqueRequestIds(requests: seq<OtpRequest>) {
    forall i, j :: 0 <= i < j < |requests| ==> requests[i].id != requests[j].id
  }

  /** At most one registration request per email. */
  ghost predicate OnePerEmail(requests: seq<OtpRequest>) {
    forall i, j ::
      (0 <= i < j < |requests| && requests[i].otpType == USER_EMAIL_REGISTRATION
       && requests[j].otpType == USER_EMAIL_REGISTRATION) ==> requests[i].email != requests[j].email
  }

  function ConcatRequestIds(requests: seq<OtpRequest>): (s: string)
    ensures forall i :: 0 <= i < |requests| ==> |requests[i].id| <= |s|
  {
    if requests == [] then "" else
      var rest := ConcatRequestIds(requests[1..]);
      assert forall i :: 1 <= i < |requests| ==> requests[i] == requests[1..][i - 1];
      requests[0].id + rest
  }

  /** The outcome of `verifyUserRegistrationOtp` for what the lookup found: the
      expiry of the stored code plays no part. */
  function VerifyOutcome(found: Option<OtpRequest>, email: string, otp: string): (r: Result<()>)
    ensures found.None? <==> r == Err("Could not find an existing otp for email " + email)
    ensures found.Some? ==> (r.Ok? <==> found.value.otpCode == otp)
    ensures found.Some? && found.value.otpCode != otp ==> r == Err("Invalid Otp")
  {
    match found
    case None => Err("Could not find an existing otp for email " + email)
    case Some(req) => if req.otpCode != otp then Err("Invalid Otp") else Ok(())
  }

  /** A stored code is accepted or refused the same way whatever its expiry. */
  lemma ExpiryIgnored(req: OtpRequest, email: string, otp: string, expiresAt: int)
    ensures VerifyOutcome(Some(req.(otpExpiresAt := expiresAt)), email, otp) == VerifyOutcome(Some(req), email, otp)
  {
  }

  class OtpTable {
    var requests: seq<OtpRequest>

    ghost predicate Valid()
      reads this
    {
      UniqueRequestIds(requests)
    }

    constructor()
      ensures Valid() && requests == []
    {
      requests := [];
    }

    /** `createRegistrationOtp`: a new registration request for the email with
        that code and expiry, under a fresh id. */
    method CreateRegistrationOtp(email: string, otpCode: string, otpExpiresAt: int, now: int)
      returns (req: OtpRequest)
      requires Valid()
      modifies this
      ensures Valid()
      ensures IndexOfRequest(old(requests), req.id).None?
      ensures req == OtpRequest(req.id, email, USER_EMAIL_REGISTRATION, otpCode, otpExpiresAt, now)
      ensures requests == old(requests) + [req]
    {
      var id := ConcatRequestIds(requests) + "o";
      req := OtpRequest(id, email, USER_EMAIL_REGISTRATION, otpCode, otpExpiresAt, now);
      var before := requests;
      requests := requests + [req];
      forall i, j | 0 <= i < j < |requests|
        ensures requests[i].id != requests[j].id
      {
        if j == |requests| - 1 {
          assert requests[i] == before[i];
        }
      }
    }

    /** `updateOtpRequest`: the record with that id keeps its id and takes the
        email, code, expiry and type of `data`, with `updatedAt` set to now. */
    method UpdateOtpRequest(id: string, data: OtpRequest, now: int) returns (r: Result<OtpRequest>)
      requires Valid()
      modifies this
      ensures Valid()
      ensures IndexOfRequest(old(requests), id).None? ==> r.Err? && requests == old(requests)
      ensures IndexOfRequest(old(requests), id).Some? ==>
        && r == Ok(OtpRequest(id, data.email, data.otpType, data.otpCode, data.otpExpiresAt, now))
        && requests == old(requests)[IndexOfRequest(old(requests), id).value := r.value]
    {
      var found := IndexOfRequest(requests, id);
      if found.None? {
        return Err("Record to update not found.");
      }
      var updated := OtpRequest(id, data.email, data.otpType, data.otpCode, data.otpExpiresAt, now);
      requests := requests[found.value := updated];
      r := Ok(updated);
    }

    /** `deleteOtpRequest`: the record with that id is removed and the others
        stay, in order. */
    method DeleteOtpRequest(id: string) returns (r: Result<OtpRequest>)
      requires Valid()
      modifies this
      ensures Valid()
      ensures IndexOfRequest(old(requests), id).None? ==> r.Err? && requests == old(requests)
      ensures IndexOfRequest(old(requests), id).Some? ==>
        var k := IndexOfRequest(old(requests), id).value;
        && r == Ok(old(requests)[k])
        && requests == old(requests)[..k] + old(requests)[k + 1..]
      ensures forall j :: 0 <= j < |requests| ==> requests[j].id != id
    {
      var found := IndexOfRequest(requests, id);
      if found.None? {
        return Err("Record to delete does not exist.");
      }
      var k := found.value;
      var before := requests;
      r := Ok(requests[k]);
      requests := requests[..k] + requests[k + 1..];
      assert forall j :: 0 <= j < |requests| ==> requests[j] == if j < k then before[j] else before[j + 1];
    }

    /** `createOtpRequestForUserRegistration` at instant `now`: a fresh code
        from the draws, valid for ten minutes, written over the email's existing
        registration request or into a new one. No second request is added. */
    method CreateOtpRequestForUserRegistration(email: string, draws: seq<real>, now: int)
      returns (req: OtpRequest)
      requires Valid() && OnePerEmail(requests)
      requires DEFAULT_OTP_LENGTH <= |draws|
      requires forall i :: 0 <= i < |draws| ==> 0.0 <= draws[i] < 1.0
      modifies this
      ensures Valid() && OnePerEmail(requests)
      ensures |req.otpCode| == DEFAULT_OTP_LENGTH && AllDigits(req.otpCode)
      ensures req.otpExpiresAt == now + OTP_LIFETIME_MS
      ensures req.email == email && req.otpType == USER_EMAIL_REGISTRATION
      ensures FindRegistration(old(requests), email).Some? ==>
        && req.id == old(requests)[FindRegistration(old(requests), email).value].id
        && requests == old(requests)[FindRegistration(old(requests), email).value := req]
      ensures FindRegistration(old(requests), email).None? ==> requests == old(requests) + [req]
      ensures FindRegistration(requests, email) == Some(FindRegistration(old(requests), email).GetOr(|old(requests)|))
      ensures requests[FindRegistration(requests, email).value] == req
    {
      var otpCode := GenerateOtp(DEFAULT_OTP_LENGTH, draws);
      var otpExpiresAt := now + OTP_LIFETIME_MS;
      var existing := FindRegistration(requests, email);
      if existing.Some? {
        var k := existing.value;
        var data := requests[k].(otpCode := otpCode, otpExpiresAt := otpExpiresAt);
        var before := requests;
        var r := UpdateOtpRequest(data.id, data, now);
        req := r.value;
        RegistrationAfterReplace(before, k, req, email);
      } else {
        var before := requests;
        req := CreateRegistrationOtp(email, otpCode, otpExpiresAt, now);
        RegistrationAfterAppend(before, req, email);
      }
    }

    /** `verifyUserRegistrationOtp`: look up the email's registration request;
        a missing one or a wrong code fails and changes nothing, the right code
        deletes the request. */
    method VerifyUserRegistrationOtp(email: string, otp: string) returns (r: Result<()>)
      requires Valid() && OnePerEmail(requests)
      modifies this
      ensures Valid() && OnePerEmail(requests)
      ensures var found := FindRegistration(old(requests), email);
        r == VerifyOutcome(if found.Some? then Some(old(requests)[found.value]) else None, email, otp)
      ensures r.Err? ==> requests == old(requests)
      ensures r.Ok? ==>
        var k := FindRegistration(old(requests), email).value;
        requests == old(requests)[..k] + old(requests)[k + 1..]
      ensures r.Ok? ==> FindRegistration(requests, email).None?
    {
      var found := FindRegistration(requests, email);
      r := VerifyOutcome(if found.Some? then Some(requests[found.value]) else None, email, otp);
      if r.Err? {
        return;
      }
      var k := found.value;
      var before := requests;
      var deleted := DeleteOtpRequest(requests[k].id);
      RemovalKeepsOnePerEmail(before, k, email);
    }
  }

  /** Writing the registration request over position `k`, the first for the
      email, keeps it first and keeps one request per email. */
  lemma RegistrationAfterReplace(requests: seq<OtpRequest>, k: nat, req: OtpRequest, email: string)
    requires FindRegistration(requests, email) == Some(k)
    requires OnePerEmail(requests)
    requires req.email == email && req.otpType == USER_EMAIL_REGISTRATION
    ensures FindRegistration(requests[k := req], email) == Some(k)
    ensures OnePerEmail(requests[k := req])
  {
    var after := requests[k := req];
    FindRegistrationAt(after, k, email);
  }

  /** Appending the registration request of an email that has none makes it the
      email's request and keeps one request per email. */
  lemma RegistrationAfterAppend(requests: seq<OtpRequest>, req: OtpRequest, email: string)
    requires FindRegistration(requests, email).None?
    requires OnePerEmail(requests)
    requires req.email == email && req.otpType == USER_EMAIL_REGISTRATION
    ensures FindRegistration(requests + [req], email) == Some(|requests|)
    ensures OnePerEmail(requests + [req])
  {
    var after := requests + [req];
    assert forall j :: 0 <= j < |requests| ==> after[j] == requests[j];
    FindRegistrationAt(after, |requests|, email);
  }

  /** A matching request with no matching one before it is what the lookup finds. */
  lemma {:induction false} FindRegistrationAt(requests: seq<OtpRequest>, k: nat, email: string)
    requires k < |requests| && requests[k].email == email && requests[k].otpType == USER_EMAIL_REGISTRATION
    requires forall j :: 0 <= j < k ==> !(requests[j].email == email && requests[j].otpType == USER_EMAIL_REGISTRATION)
    ensures FindRegistration(requests, email) == Some(k)
  {
    if k > 0 {
      FindRegistrationAt(requests[1..], k - 1, email);
    }
  }

  /** Deleting the email's only registration request leaves it none, and keeps
      one request per email. */
  lemma RemovalKeepsOnePerEmail(requests: seq<OtpRequest>, k: nat, email: string)
    requires FindRegistration(requests, email) == Some(k)
    requires OnePerEmail(requests)
    ensures OnePerEmail(requests[..k] + requests[k + 1..])
    ensures FindRegistration(requests[..k] + requests[k + 1..], email).None?
  {
    var after := requests[..k] + requests[k + 1..];
    assert forall j :: 0 <= j < |after| ==> after[j] == if j < k then requests[j] else requests[j + 1];
    forall j | 0 <= j < |after|
      ensures !(after[j].email == email && after[j].otpType == USER_EMAIL_REGISTRATION)
    {
      if j >= k {
        assert after[j] == requests[j + 1];
      }
    }
  }
}
