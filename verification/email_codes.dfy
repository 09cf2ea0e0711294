/** `EmailService`: one-shot e-mail verification codes. Instants here are
    whole seconds, the unit of the configured code lifetime. */
module EmailCodes {
  import opened Base
  import opened Seqs

  datatype VerificationType = Register | ResetPassword

  /** Column lengths of `email_verification`. */
  const EmailMaxLength: int := 100
  const CodeMaxLength: int := 6

  /** An `EmailVerification` row; `used` is the 0/1 `TINYINT` flag. */
  datatype EmailVerification = EmailVerification(
    id: int,
    email: string,
    code: string,
    kind: VerificationType,
    expireTime: int,
    used: int,
    createdAt: int)

  type Digit = d: int | 0 <= d < 10


  /** `generateCode`: one decimal digit per draw of `Random.nextInt(10)`;
      the draws, `codeLength` of them, are the random source. */
  function GenerateCode(draws: seq<Digit>): (r: string)
    ensures |r| == |draws|
    ensures forall i :: 0 <= i < |r| ==> '0' <= r[i] <= '9'
  {
    if |draws| == 0 then "" else [('0' as int + draws[0]) as char] + GenerateCode(draws[1..])
  }

  /** The digits a string of decimal characters spells. */
  function DigitsOf(s: string): (r: seq<int>)
    ensures |r| == |s|
  {
    if |s| == 0 then [] else [s[0] as int - '0' as int] + DigitsOf(s[1..])
  }

  /** A generated code spells exactly the digits drawn. */
  lemma {:induction false} GeneratedCodeSpellsDraws(draws: seq<Digit>)
    ensures DigitsOf(GenerateCode(draws)) == draws
    decreases |draws|
  {
    if |draws| > 0 {
      GeneratedCodeSpellsDraws(draws[1..]);
      var c := GenerateCode(draws);
      assert c[1..] == GenerateCode(draws[1..]);
    }
  }

  /** The record-keeping part of `sendVerificationCode`: store an unused code
      valid for `lifetime` seconds. Mail delivery is the `delivered` flag; a
      failed delivery aborts the transaction and nothing is stored. */
  function IssueCode(codes: seq<EmailVerification>, email: string, kind: VerificationType,
                     draws: seq<Digit>, now: int, lifetime: int, delivered: bool)
    : (r: Result<(seq<EmailVerification>, EmailVerification)>)
    ensures (|email| > EmailMaxLength || |draws| > CodeMaxLength) ==> r == Err(ColumnConstraintViolation)
    ensures r.Ok? <==> |email| <= EmailMaxLength && |draws| <= CodeMaxLength && delivered
    ensures (|email| <= EmailMaxLength && |draws| <= CodeMaxLength && !delivered) ==> r == Err(MailSendFailed)
    ensures r.Ok? ==> var (codes', v) := r.value;
      && codes' == codes + [v]
      && v.email == email && v.kind == kind && v.code == GenerateCode(draws)
      && v.used == 0 && v.expireTime == now + lifetime && v.createdAt == now
      && forall i :: 0 <= i < |codes| ==> codes[i].id != v.id
  {
    var v := EmailVerification(FreshId(Map(codes, (x: EmailVerification) => x.id)), email, GenerateCode(draws), kind, now + lifetime, 0, now);
    if |email| > EmailMaxLength || |v.code| > CodeMaxLength then Err(ColumnConstraintViolation)
    else if !delivered then Err(MailSendFailed)
    else Ok((codes + [v], v))
  }

  /** `findByEmailAndCodeAndTypeAndUsedAndExpireTimeAfter(email, code, type, 0, now)`. */
  predicate Redeemable(v: EmailVerification, email: string, code: string, kind: VerificationType, now: int) {
    v.email == email && v.code == code && v.kind == kind && v.used == 0 && v.expireTime > now
  }

  function Redeemables(codes: seq<EmailVerification>, email: string, code: string, kind: VerificationType, now: int): nat {
    Count(codes, (v: EmailVerification) => Redeemable(v, email, code, kind, now))
  }

  /** `verifyCode`: with no redeemable record, false and nothing changes;
      with one, it is marked used and the answer is true; more than one is a
      non-unique result for the `Optional` query. */
  function VerifyCode(codes: seq<EmailVerification>, email: string, code: string, kind: VerificationType, now: int)
    : (r: Result<(seq<EmailVerification>, bool)>)
    ensures r.Err? <==> Redeemables(codes, email, code, kind, now) > 1
    ensures r.Err? ==> r.error == NonUniqueResult
    ensures r.Ok? ==> (r.value.1 <==> exists i :: 0 <= i < |codes| && Redeemable(codes[i], email, code, kind, now))
    ensures r.Ok? && !r.value.1 ==> r.value.0 == codes
    ensures r.Ok? && r.value.1 ==> exists i :: 0 <= i < |codes| && Redeemable(codes[i], email, code, kind, now)
                                              && r.value.0 == codes[i := codes[i].(used := 1)]
  {
    var p := (v: EmailVerification) => Redeemable(v, email, code, kind, now);
    CountPositive(codes, p);
    if Count(codes, p) > 1 then Err(NonUniqueResult)
    else
      match FirstIndex(codes, p)
      case None => Ok((codes, false))
      case Some(i) => Ok((codes[i := codes[i].(used := 1)], true))
  }

  /** A code verifies at most once: straight after a successful check the
      same check fails and changes nothing. */
  lemma VerificationIsOneShot(codes: seq<EmailVerification>, email: string, code: string, kind: VerificationType,
                              now: int)
    requires VerifyCode(codes, email, code, kind, now).Ok? && VerifyCode(codes, email, code, kind, now).value.1
    ensures var codes' := VerifyCode(codes, email, code, kind, now).value.0;
            VerifyCode(codes', email, code, kind, now) == Ok((codes', false))
  {
    var p := (v: EmailVerification) => Redeemable(v, email, code, kind, now);
    var codes' := VerifyCode(codes, email, code, kind, now).value.0;
    var i :| 0 <= i < |codes| && Redeemable(codes[i], email, code, kind, now) && codes' == codes[i := codes[i].(used := 1)];
    CountPositive(codes, p);
    CountReplaceLeaving(codes, i, codes[i].(used := 1), p);
    CountPositive(codes', p);
  }

  /** A freshly issued code verifies within its lifetime, provided no other
      unused record for the same address, code and type is still valid. */
  lemma IssuedCodeVerifies(codes: seq<EmailVerification>, email: string, kind: VerificationType,
                           draws: seq<Digit>, now: int, lifetime: int, at: int)
    requires IssueCode(codes, email, kind, draws, now, lifetime, true).Ok?
    requires now <= at < now + lifetime
    requires forall i :: 0 <= i < |codes| ==> !Redeemable(codes[i], email, GenerateCode(draws), kind, at)
    ensures var (codes', v) := IssueCode(codes, email, kind, draws, now, lifetime, true).value;
            VerifyCode(codes', email, v.code, kind, at).Ok?
            && VerifyCode(codes', email, v.code, kind, at).value.1
  {
    var (codes', v) := IssueCode(codes, email, kind, draws, now, lifetime, true).value;
    var p := (x: EmailVerification) => Redeemable(x, email, v.code, kind, at);
    FilterAppend(codes, [v], p);
    CountPositive(codes, p);
    assert Filter([v], p) == [v];
    assert codes'[|codes|] == v;
  }

  /** `cleanExpiredCodes` (`deleteByExpireTimeBefore(now)`): drop exactly the
      records that expired strictly before `now`. */
  function CleanExpiredCodes(codes: seq<EmailVerification>, now: int): (r: seq<EmailVerification>)
    ensures forall x :: x in r ==> x in codes && x.expireTime >= now
    ensures forall i :: 0 <= i < |codes| && codes[i].expireTime >= now ==> codes[i] in r
    ensures IsSubsequence(r, codes)
  {
    FilterIsSubsequence(codes, (v: EmailVerification) => !(v.expireTime < now));
    Filter(codes, (v: EmailVerification) => !(v.expireTime < now))
  }

  /** Cleaning never changes the outcome of a verification at the same
      instant: every record that could verify survives it. A record expiring
      exactly at `now` is neither removed nor redeemable. */
  lemma CleaningKeepsVerification(codes: seq<EmailVerification>, email: string, code: string,
                                  kind: VerificationType, now: int)
    ensures var cleaned := CleanExpiredCodes(codes, now);
            && (VerifyCode(cleaned, email, code, kind, now).Err? <==> VerifyCode(codes, email, code, kind, now).Err?)
            && (VerifyCode(cleaned, email, code, kind, now).Ok? ==>
                  VerifyCode(cleaned, email, code, kind, now).value.1 == VerifyCode(codes, email, code, kind, now).value.1)
    ensures forall i :: 0 <= i < |codes| && codes[i].expireTime == now ==>
              codes[i] in CleanExpiredCodes(codes, now) && !Redeemable(codes[i], email, code, kind, now)
  {
    var p := (v: EmailVerification) => Redeemable(v, email, code, kind, now);
    var keep := (v: EmailVerification) => !(v.expireTime < now);
    var cleaned := CleanExpiredCodes(codes, now);
    CountAfterFilter(codes, keep, p);
    CountPositive(codes, p);
    CountPositive(cleaned, p);
  }
}
