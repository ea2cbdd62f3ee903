/** E-mail verification codes: storing a freshly sent code and consuming a
    code at registration. Generating the random code and delivering the
    message are not part of this model; the code arrives as a parameter. */
module Email {
  import opened Types
  import Database

  /** Lifetime of a code sent by e-mail: 15 minutes, in milliseconds. */
  const EMAIL_CODE_LIFETIME_MS: int := 15 * 60 * 1000

  /** The record matches the query of `verifyEmailCode`: same e-mail and
      code, not used, and expiring strictly after `now`. */
  predicate Usable(c: VerificationCode, email: string, code: string, now: int)
  {
    c.email == email && c.code == code && !c.used && c.expiresAt > now
  }

  /** `verificationCode.findFirst(...)`: the earliest usable record. */
  function FirstUsable(codes: seq<VerificationCode>, email: string, code: string, now: int): (r: Option<nat>)
    ensures r.Some? ==> r.value < |codes| && Usable(codes[r.value], email, code, now)
    ensures r.Some? ==> forall j :: 0 <= j < r.value ==> !Usable(codes[j], email, code, now)
    ensures r.None? <==> forall j :: 0 <= j < |codes| ==> !Usable(codes[j], email, code, now)
  {
    if codes == [] then None
    else if Usable(codes[0], email, code, now) then Some(0)
    else
      match FirstUsable(codes[1..], email, code, now)
      case None => None
      case Some(k) => Some(k + 1)
  }

  /** The code table after a verification attempt: the matched record is
      marked used and nothing else changes; a failed attempt changes nothing. */
  function Consume(codes: seq<VerificationCode>, email: string, code: string, now: int): seq<VerificationCode>
  {
    match FirstUsable(codes, email, code, now)
    case None => codes
    case Some(i) => codes[i := codes[i].(used := true)]
  }

  /** `sendVerificationEmail`, up to the delivery attempt: stores one record
      that expires 15 minutes after `now`. */
  method StoreVerificationCode(db: Database.Store, email: string, code: string, now: int)
    modifies db`codes
    ensures db.codes == old(db.codes) + [VerificationCode(email, code, now + EMAIL_CODE_LIFETIME_MS, false)]
  {
    db.codes := db.codes + [VerificationCode(email, code, now + EMAIL_CODE_LIFETIME_MS, false)];
  }

  /** `verifyEmailCode`: succeeds exactly when some stored record is usable,
      and then marks the earliest such record used. */
  method VerifyEmailCode(db: Database.Store, email: string, code: string, now: int) returns (ok: bool)
    modifies db`codes
    ensures ok <==> exists j :: 0 <= j < |old(db.codes)| && Usable(old(db.codes)[j], email, code, now)
    ensures db.codes == Consume(old(db.codes), email, code, now)
  {
    var found := FirstUsable(db.codes, email, code, now);
    if found.Some? {
      var i := found.value;
      db.codes := db.codes[i := db.codes[i].(used := true)];
      return true;
    }
    return false;
  }

  /** A successful verification changes exactly the matched record, and only
      its `used` flag; a failed one changes nothing. */
  lemma ConsumeChangesOnlyMatch(codes: seq<VerificationCode>, email: string, code: string, now: int)
    ensures var c := Consume(codes, email, code, now);
      && |c| == |codes|
      && (FirstUsable(codes, email, code, now).None? ==> c == codes)
      && (FirstUsable(codes, email, code, now).Some? ==>
            var i := FirstUsable(codes, email, code, now).value;
            c[i] == codes[i].(used := true) && forall j :: 0 <= j < |codes| && j != i ==> c[j] == codes[j])
  {
  }

  /** Single use: once a record has let a verification succeed, no later
      verification, for any e-mail, code or time, can succeed through it. */
  lemma {:induction false} RecordUsedOnce(codes: seq<VerificationCode>, email: string, code: string, now: int,
                                          email': string, code': string, now': int)
    requires FirstUsable(codes, email, code, now).Some?
    ensures var i := FirstUsable(codes, email, code, now).value;
      FirstUsable(Consume(codes, email, code, now), email', code', now') != Some(i)
  {
    var i := FirstUsable(codes, email, code, now).value;
    var c := Consume(codes, email, code, now);
    assert c[i].used;
    assert !Usable(c[i], email', code', now');
  }

  /** A code is rejected at the instant it expires: the comparison is strict. */
  lemma ExpiryIsStrict(codes: seq<VerificationCode>, email: string, code: string, now: int)
    requires forall j :: 0 <= j < |codes| && codes[j].email == email && codes[j].code == code ==> codes[j].expiresAt == now
    ensures FirstUsable(codes, email, code, now).None?
    ensures Consume(codes, email, code, now) == codes
  {
  }
}
