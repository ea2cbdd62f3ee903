/** `POST /api/auth/send-code`: stores the fixed verification code for an
    e-mail that no account uses yet. */
module SendCodeRoute {
  import opened Types
  import Database

  /** The code every visitor receives until e-mail delivery is set up. */
  const TEMP_VERIFICATION_CODE: string := "520260"

  /** Lifetime of that code: one hour, in milliseconds. */
  const SEND_CODE_LIFETIME_MS: int := 60 * 60 * 1000

  /** 400 without storing anything when the e-mail is missing or already
      belongs to a user; otherwise exactly one record is appended, and earlier
      records for the same e-mail stay as they were. */
  method Post(db: Database.Store, email: Option<string>, now: int) returns (r: Response)
    modifies db`codes
    ensures Falsy(email) ==> r == Response(400, Failure("Email is required")) && db.codes == old(db.codes)
    ensures !Falsy(email) && Database.EmailTaken(db.users, email.value) ==>
      r == Response(400, Failure("User with this email already exists")) && db.codes == old(db.codes)
    ensures !Falsy(email) && !Database.EmailTaken(db.users, email.value) ==>
      && r == Response(200, Message("Verification code ready"))
      && db.codes == old(db.codes) + [VerificationCode(email.value, TEMP_VERIFICATION_CODE, now + SEND_CODE_LIFETIME_MS, false)]
  {
    if Falsy(email) {
      return Response(400, Failure("Email is required"));
    }
    if Database.EmailTaken(db.users, email.value) {
      return Response(400, Failure("User with this email already exists"));
    }
    db.codes := db.codes + [VerificationCode(email.value, TEMP_VERIFICATION_CODE, now + SEND_CODE_LIFETIME_MS, false)];
    r := Response(200, Message("Verification code ready"));
  }
}
