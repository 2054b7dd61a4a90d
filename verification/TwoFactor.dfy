/** Two-factor login: one-time passwords and backup codes (app/services/totp.py) and the account
    operations on them (app/modules/auth/service.py). HMAC and SHA-256 are arbitrary functions,
    the clock and the random bytes are inputs. */
module TwoFactor {
  import opened Text
  import opened Common
  import opened Base32

  // ------------------------------------------------------------ codes

  const Digits := 6
  const Period := 30
  const BackupCodeCount := 10

  type Hash = string

  /** The number that dynamic truncation takes out of the HMAC of a key and a counter, and the
      hash of a recovery code. */
  datatype Crypto = Crypto(truncated: (Bytes, nat) -> nat, sha: string -> Hash)

  /** `str(n).zfill(width)` */
  function ZeroFill(n: nat, width: nat): (s: string)
    ensures |s| >= width && forall i :: 0 <= i < |s| ==> IsDigit(s[i])
  {
    var d := Dec(n);
    if |d| >= width then d else seq(width - |d|, _ => '0') + d
  }

  /** `_hotp`; None where it raises: for a secret that does not decode, and for a counter that
      does not fit into an unsigned field. */
  function Hotp(crypto: Crypto, secret: string, counter: int): Option<string> {
    var key := Decode(secret);
    if key.None? || counter < 0 then None
    else Some(ZeroFill(crypto.truncated(key.value, counter) % 1_000_000, Digits))
  }

  /** `_normalize_code`: only the digits. */
  function DigitsOf(s: string): (d: string)
    ensures forall i :: 0 <= i < |d| ==> IsDigit(d[i])
  {
    if s == "" then "" else (if IsDigit(s[0]) then [s[0]] else "") + DigitsOf(s[1..])
  }

  datatype Verdict = Accepted | Rejected | Raised

  /** The code for one counter is this one. */
  predicate MatchesAt(crypto: Crypto, secret: string, digits: string, counter: int) {
    Hotp(crypto, secret, counter) == Some(digits)
  }

  /** `verify` with its window of one step either way, at time `now` in seconds: an exception
      comes with the first counter of the window or not at all. */
  function Verify(crypto: Crypto, secret: string, code: string, now: nat): Verdict {
    var digits, counter := DigitsOf(code), now / Period;
    if |digits| != Digits then Rejected
    else if Hotp(crypto, secret, counter - 1).None? then Raised
    else if exists c :: counter - 1 <= c <= counter + 1 && MatchesAt(crypto, secret, digits, c) then Accepted
    else Rejected
  }

  lemma LaterCounter(crypto: Crypto, secret: string, b: int, c: int)
    requires b <= c
    ensures Hotp(crypto, secret, c).None? ==> Hotp(crypto, secret, b).None?
  {
  }

  /** The search loop of `verify`. */
  method VerifyCode(crypto: Crypto, secret: string, code: string, now: nat) returns (verdict: Verdict)
    ensures verdict == Verify(crypto, secret, code, now)
  {
    hide Hotp, DigitsOf;
    var normalized := DigitsOf(code);
    if |normalized| != Digits {
      return Rejected;
    }
    var counter := now / Period;
    for c := counter - 1 to counter + 2
      invariant c > counter - 1 ==> Hotp(crypto, secret, counter - 1).Some?
      invariant forall b :: counter - 1 <= b < c ==> !MatchesAt(crypto, secret, normalized, b)
    {
      LaterCounter(crypto, secret, counter - 1, c);
      var candidate := Hotp(crypto, secret, c);
      if candidate.None? {
        return Raised;
      }
      if candidate.value == normalized {
        assert MatchesAt(crypto, secret, normalized, c);
        return Accepted;
      }
    }
    return Rejected;
  }

  /** One recovery code, from two random numbers below 100000. */
  function BackupCode(a: nat, b: nat): string {
    ZeroFill(a, 5) + "-" + ZeroFill(b, 5)
  }

  /** What `hash_backup_code` hashes. */
  function Typed(code: string): string {
    Lower(Without(Strip(code), ' '))
  }

  function HashBackupCode(crypto: Crypto, code: string): Hash {
    crypto.sha(Typed(code))
  }

  // ------------------------------------------------------------ codes are never confused

  lemma {:induction false} DecLength(n: nat, width: nat)
    requires width > 0 && n < Pow(10, width)
    ensures |Dec(n)| <= width
    decreases width
  {
    if n >= 10 {
      assert Pow(10, 0) == 1;
      assert n / 10 < Pow(10, width - 1);
      DecLength(n / 10, width - 1);
    }
  }

  lemma {:induction false} DigitsAppend(s: string, t: string)
    ensures DigitsOf(s + t) == DigitsOf(s) + DigitsOf(t)
  {
    if s == "" {
      assert s + t == t;
    } else {
      assert (s + t)[1..] == s[1..] + t;
      DigitsAppend(s[1..], t);
    }
  }

  lemma {:induction false} DigitsOfDigits(s: string)
    requires forall i :: 0 <= i < |s| ==> IsDigit(s[i])
    ensures DigitsOf(s) == s
  {
    if s != "" {
      DigitsOfDigits(s[1..]);
    }
  }

  lemma {:induction false} DigitsOfWithout(s: string)
    ensures DigitsOf(Without(s, ' ')) == DigitsOf(s)
  {
    if s != "" {
      DigitsOfWithout(s[1..]);
      DigitsAppend(if s[0] == ' ' then "" else [s[0]], Without(s[1..], ' '));
      assert DigitsOf([s[0]]) == if IsDigit(s[0]) then [s[0]] else "";
    }
  }

  lemma {:induction false} DigitsOfLower(s: string)
    ensures DigitsOf(Lower(s)) == DigitsOf(s)
  {
    if s != "" {
      assert Lower(s)[1..] == Lower(s[1..]);
      DigitsOfLower(s[1..]);
    }
  }

  lemma {:induction false} DigitsOfLStrip(s: string)
    ensures DigitsOf(LStrip(IsSpace, s)) == DigitsOf(s)
  {
    if s != "" && IsSpace(s[0]) {
      DigitsOfLStrip(s[1..]);
    }
  }

  lemma {:induction false} DigitsOfRStrip(s: string)
    ensures DigitsOf(RStrip(IsSpace, s)) == DigitsOf(s)
  {
    if s != "" && IsSpace(s[|s| - 1]) {
      var front, last := s[..|s| - 1], [s[|s| - 1]];
      DigitsOfRStrip(front);
      DigitsAppend(front, last);
      assert s == front + last;
      assert DigitsOf(last) == "";
    }
  }

  lemma DigitsOfTyped(code: string)
    ensures DigitsOf(Typed(code)) == DigitsOf(code)
  {
    DigitsOfLStrip(code);
    DigitsOfRStrip(LStrip(IsSpace, code));
    DigitsOfWithout(Strip(code));
    DigitsOfLower(Without(Strip(code), ' '));
  }

  lemma BackupCodeDigits(a: nat, b: nat)
    requires a < 100_000 && b < 100_000
    ensures |DigitsOf(BackupCode(a, b))| == 10
  {
    TenToTheFifth();
    DecLength(a, 5);
    DecLength(b, 5);
    var x, y := ZeroFill(a, 5), ZeroFill(b, 5);
    DigitsAppend(x + "-", y);
    DigitsAppend(x, "-");
    DigitsOfDigits(x);
    DigitsOfDigits(y);
    assert DigitsOf("-") == "";
  }

  lemma TenToTheSixth()
    ensures Pow(10, 6) == 1_000_000
  {
    TenToTheFifth();
    assert Pow(10, 6) == Pow(10, 5) * 10;
  }

  lemma TenToTheFifth()
    ensures Pow(10, 5) == 100_000
  {
    assert Pow(10, 0) == 1;
    assert Pow(10, 1) == Pow(10, 0) * 10;
    assert Pow(10, 2) == Pow(10, 1) * 10;
    assert Pow(10, 3) == Pow(10, 2) * 10;
    assert Pow(10, 4) == Pow(10, 3) * 10;
    assert Pow(10, 5) == Pow(10, 4) * 10;
  }

  /** Every secret that `generate_secret` makes yields a code of exactly six digits for every
      counter. */
  lemma GeneratedSecretGivesSixDigits(crypto: Crypto, raw: Bytes, counter: nat)
    requires IsBytes(raw)
    ensures var code := Hotp(crypto, Secret(raw), counter);
            code.Some? && |code.value| == Digits && DigitsOf(code.value) == code.value
  {
    UnpaddedSecretDecodes(raw);
    var n := crypto.truncated(raw, counter) % 1_000_000;
    TenToTheSixth();
    DecLength(n, Digits);
    DigitsOfDigits(ZeroFill(n, Digits));
  }

  /** So the code that the secret yields now, typed with anything between its digits, is accepted,
      and no code at all makes the check raise once the clock has passed its first period. */
  lemma GeneratedSecretWorks(crypto: Crypto, raw: Bytes, code: string, now: nat)
    requires IsBytes(raw) && now >= Period
    ensures Verify(crypto, Secret(raw), code, now) != Raised
    ensures Hotp(crypto, Secret(raw), now / Period) == Some(DigitsOf(code)) ==>
              Verify(crypto, Secret(raw), code, now) == Accepted
  {
    hide Hotp, Secret;
    var counter := now / Period;
    GeneratedSecretGivesSixDigits(crypto, raw, counter - 1);
    GeneratedSecretGivesSixDigits(crypto, raw, counter);
    if Hotp(crypto, Secret(raw), counter) == Some(DigitsOf(code)) {
      assert MatchesAt(crypto, Secret(raw), DigitsOf(code), counter);
    }
  }

  /** The code for a counter spells the number that the HMAC gives for it, modulo a million. */
  lemma HotpSpellsNumber(crypto: Crypto, raw: Bytes, counter: nat)
    requires IsBytes(raw)
    ensures var code := Hotp(crypto, Secret(raw), counter);
            code.Some? && DecValue(code.value) == crypto.truncated(raw, counter) % 1_000_000
  {
    hide Decode;
    UnpaddedSecretDecodes(raw);
    ZeroFillSpells(crypto.truncated(raw, counter) % 1_000_000, Digits);
  }

  lemma {:induction false} ZerosAddNothing(zeros: nat, d: string)
    requires d != "" && forall i :: 0 <= i < |d| ==> IsDigit(d[i])
    ensures var s := seq(zeros, _ => '0') + d;
            (forall i :: 0 <= i < |s| ==> IsDigit(s[i])) && DecValue(s) == DecValue(d)
    decreases |d|
  {
    var pad := seq(zeros, _ => '0');
    var s := pad + d;
    assert s[..|s| - 1] == pad + d[..|d| - 1];
    if |d| == 1 {
      ZerosAreZero(zeros);
      assert pad + d[..|d| - 1] == pad;
    } else {
      ZerosAddNothing(zeros, d[..|d| - 1]);
    }
  }

  lemma {:induction false} ZerosAreZero(zeros: nat)
    ensures DecValue(seq(zeros, _ => '0')) == 0
  {
    if zeros > 0 {
      var pad := seq(zeros, _ => '0');
      assert pad[..zeros - 1] == seq(zeros - 1, _ => '0');
      ZerosAreZero(zeros - 1);
    }
  }

  lemma ZeroFillSpells(n: nat, width: nat)
    ensures DecValue(ZeroFill(n, width)) == n
  {
    DecRoundTrip(n);
    if |Dec(n)| < width {
      ZerosAddNothing(width - |Dec(n)|, Dec(n));
    }
  }

  /** The codes of the counter of this period, of the one before and of the one after. */
  function Window(crypto: Crypto, secret: string, now: nat): set<Option<string>> {
    {Hotp(crypto, secret, now / 30 - 1), Hotp(crypto, secret, now / 30), Hotp(crypto, secret, now / 30 + 1)}
  }

  /** Whether the code can be checked at all: the secret decodes, and no counter is negative. */
  predicate Checkable(secret: string, now: nat) {
    Decode(secret).Some? && now >= 30
  }

  /** A code is accepted if, and only if, its digits are one of the codes of the window; the check
      raises if, and only if, there are six digits to check and the check is impossible. */
  lemma VerifyExactly(crypto: Crypto, secret: string, code: string, now: nat)
    ensures Verify(crypto, secret, code, now) == Accepted <==>
            |DigitsOf(code)| == 6 && Checkable(secret, now) && Some(DigitsOf(code)) in Window(crypto, secret, now)
    ensures Verify(crypto, secret, code, now) == Raised <==> |DigitsOf(code)| == 6 && !Checkable(secret, now)
  {
    hide DigitsOf, Decode, ZeroFill;
    var digits, c := DigitsOf(code), now / Period;
    assert MatchesAt(crypto, secret, digits, c - 1) <==> Hotp(crypto, secret, c - 1) == Some(digits);
    assert MatchesAt(crypto, secret, digits, c) <==> Hotp(crypto, secret, c) == Some(digits);
    assert MatchesAt(crypto, secret, digits, c + 1) <==> Hotp(crypto, secret, c + 1) == Some(digits);
  }

  /** At any moment at most three strings of digits pass. */
  lemma AtMostThreePass(crypto: Crypto, secret: string, now: nat) returns (passing: set<string>)
    ensures |passing| <= 3
    ensures forall code :: Verify(crypto, secret, code, now) == Accepted ==> DigitsOf(code) in passing
  {
    hide Verify, DigitsOf, Hotp;
    var w := Window(crypto, secret, now);
    passing := set x | x in w && x.Some? :: x.value;
    forall code | Verify(crypto, secret, code, now) == Accepted
      ensures DigitsOf(code) in passing
    {
      VerifyExactly(crypto, secret, code, now);
    }
    var a, b := Hotp(crypto, secret, now / 30 - 1), Hotp(crypto, secret, now / 30);
    var c := Hotp(crypto, secret, now / 30 + 1);
    var all := {Shown(a), Shown(b), Shown(c)};
    assert passing <= all;
    SubsetSize(passing, all);
  }

  function Shown(code: Option<string>): string {
    if code.Some? then code.value else ""
  }

  /** A recovery code has ten digits, so however it is typed it never passes as a one-time
      password, nor does it make the check raise: it is always spent, or refused, as a recovery
      code. */
  lemma BackupCodeIsNoTotp(crypto: Crypto, secret: string, a: nat, b: nat, code: string, now: nat)
    requires a < 100_000 && b < 100_000 && Typed(code) == BackupCode(a, b)
    ensures Verify(crypto, secret, code, now) == Rejected
  {
    DigitsOfTyped(code);
    BackupCodeDigits(a, b);
  }

  // ------------------------------------------------------------ account operations

  datatype Admin = Admin(secret: Option<string>, enabled: bool, backup: Option<seq<Hash>>)

  const FreshAdmin := Admin(None, false, None)

  /** Neither None nor the empty string. */
  predicate HasSecret(a: Admin) {
    a.secret.Some? && a.secret.value != ""
  }

  /** Why an operation raised; `Crashed` is the exception of a code check. */
  datatype Outcome = Done | AlreadyEnabled | NotSetUp | WrongCode | WrongPassword | Crashed

  datatype Login = Refused | ByTotp | ByBackup(hash: Hash) | LoginCrashed

  function Hashes(crypto: Crypto, codes: seq<string>): (hashes: seq<Hash>)
    ensures |hashes| == |codes|
  {
    seq(|codes|, i requires 0 <= i < |codes| => HashBackupCode(crypto, codes[i]))
  }

  /** `list.remove(x)` */
  function RemoveFirst(hashes: seq<Hash>, x: Hash): (rest: seq<Hash>)
    requires x in hashes
    ensures |rest| == |hashes| - 1
  {
    if hashes[0] == x then hashes[1..] else [hashes[0]] + RemoveFirst(hashes[1..], x)
  }

  function SetupStep(a: Admin, raw: Bytes): (Admin, Outcome) {
    if a.enabled then (a, AlreadyEnabled) else (a.(secret := Some(Secret(raw))), Done)
  }

  function EnableStep(a: Admin, crypto: Crypto, code: string, issued: seq<string>, now: nat): (Admin, Outcome) {
    if a.enabled then (a, AlreadyEnabled)
    else if !HasSecret(a) then (a, NotSetUp)
    else if Verify(crypto, a.secret.value, code, now).Raised? then (a, Crashed)
    else if Verify(crypto, a.secret.value, code, now).Rejected? then (a, WrongCode)
    else (a.(backup := Some(Hashes(crypto, issued)), enabled := true), Done)
  }

  function DisableStep(a: Admin, passwordOk: bool): (Admin, Outcome) {
    if passwordOk then (Admin(None, false, None), Done) else (a, WrongPassword)
  }

  function LoginStep(a: Admin, crypto: Crypto, code: string, now: nat): (Admin, Login) {
    if code == "" || !HasSecret(a) then (a, Refused)
    else if Verify(crypto, a.secret.value, code, now).Raised? then (a, LoginCrashed)
    else if Verify(crypto, a.secret.value, code, now).Accepted? then (a, ByTotp)
    else
      var candidate := HashBackupCode(crypto, code);
      if a.backup.None? || candidate !in a.backup.value then (a, Refused)
      else (a.(backup := Some(RemoveFirst(a.backup.value, candidate))), ByBackup(candidate))
  }

  /** Which logins pass: with an accepted code, or with a recovery code whose hash is on the list,
      and in no other way. */
  lemma LoginExactly(a: Admin, crypto: Crypto, code: string, now: nat)
    ensures var login := LoginStep(a, crypto, code, now).1;
            && (login == ByTotp <==>
                  code != "" && HasSecret(a) && Verify(crypto, a.secret.value, code, now) == Accepted)
            && (login == ByTotp ==> Some(DigitsOf(code)) in Window(crypto, a.secret.value, now))
            && (login.ByBackup? <==>
                  && code != "" && HasSecret(a) && Verify(crypto, a.secret.value, code, now) == Rejected
                  && a.backup.Some? && HashBackupCode(crypto, code) in a.backup.value)
            && (login.ByBackup? ==> login.hash == HashBackupCode(crypto, code))
  {
    hide Verify, HashBackupCode, DigitsOf, RemoveFirst, Window;
    if HasSecret(a) {
      VerifyExactly(crypto, a.secret.value, code, now);
    }
  }

  /** Setting up stores a new secret without switching anything on, and only while two-factor is
      off; disabling takes the password and leaves nothing that a login could use. */
  lemma SetupAndDisableExactly(a: Admin, raw: Bytes, passwordOk: bool, crypto: Crypto, code: string, now: nat)
    ensures var (after, outcome) := SetupStep(a, raw);
            && (outcome == Done <==> !a.enabled)
            && after == if a.enabled then a else Admin(Some(Secret(raw)), false, a.backup)
    ensures var (after, outcome) := DisableStep(a, passwordOk);
            && (outcome == Done <==> passwordOk)
            && (!passwordOk ==> after == a)
            && (passwordOk ==> !after.enabled && LoginStep(after, crypto, code, now).1 == Refused)
  {
    hide Secret, Verify, HashBackupCode;
  }

  /** Two-factor goes on only for somebody who has a code of the pending secret. */
  lemma EnableExactly(a: Admin, crypto: Crypto, code: string, issued: seq<string>, now: nat)
    ensures var (after, outcome) := EnableStep(a, crypto, code, issued, now);
            && (outcome == Done <==>
                  !a.enabled && HasSecret(a) && Verify(crypto, a.secret.value, code, now) == Accepted)
            && (outcome == Done ==>
                  && Some(DigitsOf(code)) in Window(crypto, a.secret.value, now)
                  && after.enabled && after.secret == a.secret
                  && after.backup == Some(Hashes(crypto, issued)))
            && (outcome != Done ==> after == a)
  {
    hide Verify, DigitsOf, Hashes, Window;
    if HasSecret(a) {
      VerifyExactly(crypto, a.secret.value, code, now);
    }
  }

  /** A recovery code typed with any spaces in it is still that code. */
  lemma SpacesDoNotMatter(a: nat, b: nat, typed: string)
    requires Without(typed, ' ') == BackupCode(a, b)
    ensures Typed(typed) == BackupCode(a, b)
  {
    hide BackupCode, Without;
    var code := BackupCode(a, b);
    BackupCodeChars(a, b);
    forall i | 0 <= i < |typed| && typed[i] != ' '
      ensures !IsSpace(typed[i])
    {
      CharacterSurvives(typed, i);
    }
    LStripOnlySpaces(typed);
    LStripSuffix(IsSpace, typed);
    RStripOnlySpaces(LStrip(IsSpace, typed));
    NothingToLower(code);
  }

  lemma NothingToLower(s: string)
    requires forall c :: c in s ==> IsDigit(c) || c == '-'
    ensures Lower(s) == s
  {
    assert forall i :: 0 <= i < |s| ==> s[i] in s;
  }

  lemma BackupCodeChars(a: nat, b: nat)
    ensures BackupCode(a, b) != ""
    ensures forall c :: c in BackupCode(a, b) ==> IsDigit(c) || c == '-'
  {
  }

  /** Every recovery code that was issued works, however it is spaced: right after enabling, and
      whenever its hash is still on the list. */
  lemma IssuedCodeWorks(account: Admin, crypto: Crypto, code: string, issued: seq<string>, i: nat,
                        a: nat, b: nat, typed: string, at: nat, now: nat)
    requires EnableStep(account, crypto, code, issued, at).1 == Done
    requires i < |issued| && issued[i] == BackupCode(a, b) && a < 100_000 && b < 100_000
    requires Without(typed, ' ') == BackupCode(a, b)
    ensures LoginStep(EnableStep(account, crypto, code, issued, at).0, crypto, typed, now).1
         == ByBackup(crypto.sha(BackupCode(a, b)))
  {
    hide Verify, BackupCode, RemoveFirst, Typed;
    var on := EnableStep(account, crypto, code, issued, at).0;
    SpacesDoNotMatter(a, b, typed);
    BackupCodeChars(a, b);
    WithoutNothing(BackupCode(a, b), ' ');
    SpacesDoNotMatter(a, b, BackupCode(a, b));
    BackupCodeIsNoTotp(crypto, on.secret.value, a, b, typed, now);
    assert Hashes(crypto, issued)[i] == crypto.sha(BackupCode(a, b));
    assert typed != "";
  }

  class AdminUser {
    var totpSecret: Option<string>
    var totpEnabled: bool
    var totpBackupCodes: Option<seq<Hash>>

    ghost function State(): Admin
      reads this
    {
      Admin(totpSecret, totpEnabled, totpBackupCodes)
    }

    constructor ()
      ensures State() == FreshAdmin
    {
      totpSecret, totpEnabled, totpBackupCodes := None, false, None;
    }

    method SetupTotp(raw: Bytes) returns (outcome: Outcome)
      modifies this
      ensures State() == SetupStep(old(State()), raw).0
      ensures outcome == SetupStep(old(State()), raw).1
    {
      if totpEnabled {
        return AlreadyEnabled;
      }
      totpSecret := Some(Secret(raw));
      return Done;
    }

    method EnableTotp(crypto: Crypto, code: string, issued: seq<string>, now: nat) returns (outcome: Outcome)
      modifies this
      ensures State() == EnableStep(old(State()), crypto, code, issued, now).0
      ensures outcome == EnableStep(old(State()), crypto, code, issued, now).1
    {
      if totpEnabled {
        return AlreadyEnabled;
      }
      if totpSecret.None? || totpSecret.value == "" {
        return NotSetUp;
      }
      var verdict := VerifyCode(crypto, totpSecret.value, code, now);
      if verdict.Raised? {
        return Crashed;
      }
      if verdict.Rejected? {
        return WrongCode;
      }
      totpBackupCodes := Some(Hashes(crypto, issued));
      totpEnabled := true;
      return Done;
    }

    method DisableTotp(passwordOk: bool) returns (outcome: Outcome)
      modifies this
      ensures State() == DisableStep(old(State()), passwordOk).0
      ensures outcome == DisableStep(old(State()), passwordOk).1
    {
      if !passwordOk {
        return WrongPassword;
      }
      totpEnabled, totpSecret, totpBackupCodes := false, None, None;
      return Done;
    }

    method VerifyTotpLogin(crypto: Crypto, code: string, now: nat) returns (login: Login)
      modifies this
      ensures State() == LoginStep(old(State()), crypto, code, now).0
      ensures login == LoginStep(old(State()), crypto, code, now).1
    {
      if code == "" || totpSecret.None? || totpSecret.value == "" {
        return Refused;
      }
      var verdict := VerifyCode(crypto, totpSecret.value, code, now);
      if verdict.Raised? {
        return LoginCrashed;
      }
      if verdict.Accepted? {
        return ByTotp;
      }
      login := ConsumeBackupCode(crypto, code);
    }

    method ConsumeBackupCode(crypto: Crypto, code: string) returns (login: Login)
      modifies this
      ensures totpSecret == old(totpSecret) && totpEnabled == old(totpEnabled)
      ensures var candidate := HashBackupCode(crypto, code);
              if old(totpBackupCodes).None? || candidate !in old(totpBackupCodes).value then
                login == Refused && totpBackupCodes == old(totpBackupCodes)
              else
                login == ByBackup(candidate)
                && totpBackupCodes == Some(RemoveFirst(old(totpBackupCodes).value, candidate))
    {
      if totpBackupCodes.None? {
        return Refused;
      }
      var candidate := HashBackupCode(crypto, code);
      if candidate !in totpBackupCodes.value {
        return Refused;
      }
      totpBackupCodes := Some(RemoveFirst(totpBackupCodes.value, candidate));
      return ByBackup(candidate);
    }
  }

  // ------------------------------------------------------------ runs

  datatype Event =
    | Setup(raw: Bytes)
    | Enable(code: string, issued: seq<string>)
    | Disable(passwordOk: bool)
    | TryLogin(code: string)

  datatype Timed = Timed(event: Event, now: nat)

  /** The account after one event, and the login result if it was one. */
  function Step(a: Admin, t: Timed, crypto: Crypto): (Admin, Login) {
    match t.event
    case Setup(raw) => (SetupStep(a, raw).0, Refused)
    case Enable(code, issued) => (EnableStep(a, crypto, code, issued, t.now).0, Refused)
    case Disable(passwordOk) => (DisableStep(a, passwordOk).0, Refused)
    case TryLogin(code) => LoginStep(a, crypto, code, t.now)
  }

  function Run(a: Admin, events: seq<Timed>, crypto: Crypto): Admin {
    if events == [] then a else Step(Run(a, events[..|events| - 1], crypto), events[|events| - 1], crypto).0
  }

  /** Hashes of the recovery codes that logins spent, with repetition. */
  ghost function Spent(a: Admin, events: seq<Timed>, crypto: Crypto): multiset<Hash> {
    if events == [] then multiset{}
    else
      var before := events[..|events| - 1];
      var login := Step(Run(a, before, crypto), events[|events| - 1], crypto).1;
      Spent(a, before, crypto) + (if login.ByBackup? then multiset{login.hash} else multiset{})
  }

  /** Enabling issues ten codes. */
  ghost predicate IssuesTen(t: Timed) {
    t.event.Enable? ==> |t.event.issued| == BackupCodeCount
  }

  lemma {:induction false} RemoveFirstMultiset(hashes: seq<Hash>, x: Hash)
    requires x in hashes
    ensures multiset(RemoveFirst(hashes, x)) + multiset{x} == multiset(hashes)
  {
    assert hashes == [hashes[0]] + hashes[1..];
    if hashes[0] != x {
      RemoveFirstMultiset(hashes[1..], x);
    }
  }

  ghost predicate KeepsTwoFactorOn(events: seq<Timed>) {
    forall i :: 0 <= i < |events| ==> events[i].event != Disable(true)
  }

  lemma StepConserves(a: Admin, t: Timed, crypto: Crypto)
    requires a.enabled && a.backup.Some? && t.event != Disable(true)
    ensures var (end, login) := Step(a, t, crypto);
            && end.enabled && end.secret == a.secret && end.backup.Some?
            && multiset(end.backup.value) + (if login.ByBackup? then multiset{login.hash} else multiset{})
            == multiset(a.backup.value)
  {
    var login := Step(a, t, crypto).1;
    if login.ByBackup? {
      RemoveFirstMultiset(a.backup.value, login.hash);
    }
  }

  /** From enabling to disabling, whatever is tried: two-factor stays on with the same secret,
      and the codes left plus the codes spent are exactly the codes issued. */
  lemma {:induction false} CodesAreConserved(a: Admin, events: seq<Timed>, crypto: Crypto)
    requires a.enabled && a.backup.Some? && KeepsTwoFactorOn(events)
    ensures var end := Run(a, events, crypto);
            && end.enabled && end.secret == a.secret && end.backup.Some?
            && multiset(end.backup.value) + Spent(a, events, crypto) == multiset(a.backup.value)
  {
    if events != [] {
      var before, t := events[..|events| - 1], events[|events| - 1];
      CodesAreConserved(a, before, crypto);
      StepConserves(Run(a, before, crypto), t, crypto);
    }
  }

  /** So a code works at most as often as it was issued, and at most ten logins use one. */
  lemma BackupLoginsAreBounded(a: Admin, t: Timed, events: seq<Timed>, crypto: Crypto)
    requires t.event.Enable? && |t.event.issued| == BackupCodeCount
    requires EnableStep(a, crypto, t.event.code, t.event.issued, t.now).1 == Done
    requires KeepsTwoFactorOn(events)
    ensures var on := EnableStep(a, crypto, t.event.code, t.event.issued, t.now).0;
            var issued, spent := multiset(Hashes(crypto, t.event.issued)), Spent(on, events, crypto);
            spent <= issued && |spent| <= BackupCodeCount
  {
    var on := EnableStep(a, crypto, t.event.code, t.event.issued, t.now).0;
    CodesAreConserved(on, events, crypto);
    var left, spent := multiset(Run(on, events, crypto).backup.value), Spent(on, events, crypto);
    assert |left + spent| == |left| + |spent|;
  }

  /** Whether the event did what it was meant to do. */
  ghost predicate Succeeds(a: Admin, t: Timed, crypto: Crypto) {
    match t.event
    case Setup(raw) => SetupStep(a, raw).1 == Done
    case Enable(code, issued) => EnableStep(a, crypto, code, issued, t.now).1 == Done
    case Disable(passwordOk) => DisableStep(a, passwordOk).1 == Done
    case TryLogin(code) => LoginStep(a, crypto, code, t.now).1.ByBackup?
  }

  /** The events of a run that changed something: no failed attempt, and no one-time password. */
  ghost function Effective(a: Admin, events: seq<Timed>, crypto: Crypto): seq<Timed> {
    if events == [] then []
    else
      var before, t := events[..|events| - 1], events[|events| - 1];
      Effective(a, before, crypto) + (if Succeeds(Run(a, before, crypto), t, crypto) then [t] else [])
  }

  /** However many attempts fail in between, and however they fail, the account ends up as if
      only the effective events had taken place. */
  lemma {:induction false} FailuresLeaveNoTrace(a: Admin, events: seq<Timed>, crypto: Crypto)
    ensures Run(a, Effective(a, events, crypto), crypto) == Run(a, events, crypto)
  {
    hide Verify, HashBackupCode, Hashes, RemoveFirst, Secret;
    if events != [] {
      var before, t := events[..|events| - 1], events[|events| - 1];
      FailuresLeaveNoTrace(a, before, crypto);
      var kept := Effective(a, before, crypto);
      assert (kept + [t])[..|kept| + 1 - 1] == kept;
      assert kept + [] == kept;
    }
  }

  /** Nothing that happens to an account makes a later code check raise: every secret it can hold
      was generated, and so decodes. */
  lemma {:induction false} NothingCrashes(events: seq<Timed>, crypto: Crypto,
                                          code: string, issued: seq<string>, now: nat)
    requires now >= Period
    requires forall i :: 0 <= i < |events| ==> events[i].event.Setup? ==> IsBytes(events[i].event.raw)
    ensures var a := Run(FreshAdmin, events, crypto);
            && (a.secret.Some? ==> exists raw :: IsBytes(raw) && a.secret.value == Secret(raw))
            && LoginStep(a, crypto, code, now).1 != LoginCrashed
            && EnableStep(a, crypto, code, issued, now).1 != Crashed
  {
    hide Verify, HashBackupCode, Hashes, RemoveFirst, Secret;
    if events != [] {
      var before, t := events[..|events| - 1], events[|events| - 1];
      NothingCrashes(before, crypto, code, issued, now);
      assert t.event.Setup? ==> IsBytes(t.event.raw);
    }
    var a := Run(FreshAdmin, events, crypto);
    if a.secret.Some? {
      var raw :| IsBytes(raw) && a.secret.value == Secret(raw);
      GeneratedSecretWorks(crypto, raw, code, now);
    }
  }

  /** In every reachable state, two-factor that is on has a secret and a list of codes; and a
      secret in use is never replaced without two-factor going off first. */
  lemma {:induction false} EnabledMeansSecret(events: seq<Timed>, crypto: Crypto)
    requires forall i :: 0 <= i < |events| ==> IssuesTen(events[i])
    ensures var a := Run(FreshAdmin, events, crypto);
            a.enabled ==> HasSecret(a) && a.backup.Some? && |a.backup.value| <= BackupCodeCount
    ensures events != [] ==>
              var a, b := Run(FreshAdmin, events[..|events| - 1], crypto), Run(FreshAdmin, events, crypto);
              a.enabled && b.enabled ==> b.secret == a.secret
  {
    hide Verify, HashBackupCode, Secret, RemoveFirst;
    if events != [] {
      var before, t := events[..|events| - 1], events[|events| - 1];
      EnabledMeansSecret(before, crypto);
      assert IssuesTen(t);
    }
  }
}
