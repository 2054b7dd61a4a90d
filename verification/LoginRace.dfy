/** Logins of one account that overlap with each other and with the account being switched over
    (app/modules/auth/service.py:87-156, called from app/api/routes.py:505-525 and
    app/modules/auth/routes.py:80-110). A login reads the account when it starts and, when it
    spends a recovery code, later writes the whole list back that it read, less that code; nothing
    locks the row in between. */
module LoginRace {
  import opened Text
  import opened Common
  import opened Base32
  import opened TwoFactor

  type LoginId = nat

  /** The stored account, what each login under way has read, the codes issued by the latest
      enabling, and the codes spent since. */
  datatype State = State(account: Admin, open: map<LoginId, Admin>, issued: multiset<Hash>, spent: multiset<Hash>)

  /** `Change` is setting up, enabling or disabling two-factor, in one step. */
  datatype Action =
    | Read(x: LoginId)
    | Finish(x: LoginId, code: string, now: nat)
    | Change(event: Event, now: nat)

  predicate Possible(s: State, a: Action) {
    match a
    case Read(x) => x !in s.open
    case Finish(x, _, _) => x in s.open
    case Change(event, _) => !event.TryLogin?
  }

  /** How a login that finishes goes, by what it has read; an account that had two-factor off is
      not asked for a code. */
  function Result(s: State, a: Action, crypto: Crypto): (Admin, Login)
    requires a.Finish? && a.x in s.open
  {
    var read := s.open[a.x];
    if read.enabled then LoginStep(read, crypto, a.code, a.now) else (read, Refused)
  }

  /** Two-factor goes on, or off. */
  predicate Switches(a: Admin, event: Event, now: nat, crypto: Crypto) {
    match event
    case Enable(code, issued) => EnableStep(a, crypto, code, issued, now).1 == Done
    case Disable(passwordOk) => DisableStep(a, passwordOk).1 == Done
    case _ => false
  }

  /** Of a login only the list is written, and only when it spends a code. Enabling issues new
      codes, disabling withdraws them. */
  function Next(s: State, a: Action, crypto: Crypto): State
    requires Possible(s, a)
  {
    match a
    case Read(x) => s.(open := s.open[x := s.account])
    case Finish(x, _, _) =>
      var (after, login) := Result(s, a, crypto);
      if login.ByBackup? then
        State(s.account.(backup := after.backup), s.open - {x}, s.issued, s.spent + multiset{login.hash})
      else s.(open := s.open - {x})
    case Change(event, now) =>
      var after := Step(s.account, Timed(event, now), crypto).0;
      if Switches(s.account, event, now, crypto) then State(after, s.open, Left(after), multiset{})
      else s.(account := after)
  }

  ghost predicate Runs(s: State, actions: seq<Action>, crypto: Crypto)
    decreases |actions|
  {
    actions != [] ==> Possible(s, actions[0]) && Runs(Next(s, actions[0], crypto), actions[1..], crypto)
  }

  ghost function After(s: State, actions: seq<Action>, crypto: Crypto): State
    requires Runs(s, actions, crypto)
    decreases |actions|
  {
    if actions == [] then s else After(Next(s, actions[0], crypto), actions[1..], crypto)
  }

  // ------------------------------------------------------------ conservation

  /** The codes that an account still has. */
  function Left(a: Admin): multiset<Hash> {
    if a.backup.None? then multiset{} else multiset(a.backup.value)
  }

  /** The codes left and the codes spent are the codes issued. */
  ghost predicate Conserved(s: State) {
    Left(s.account) + s.spent == s.issued
  }

  ghost predicate Spends(s: State, a: Action, crypto: Crypto) {
    a.Finish? && a.x in s.open && Result(s, a, crypto).1.ByBackup?
  }

  /** A login spends a code although the codes are no longer those that it has read: another
      login has spent one, or two-factor was switched over. */
  ghost predicate Overwrites(s: State, a: Action, crypto: Crypto) {
    Spends(s, a, crypto) && Left(s.open[a.x]) != Left(s.account)
  }

  ghost predicate AlwaysConserved(s: State, actions: seq<Action>, crypto: Crypto)
    requires Runs(s, actions, crypto)
    decreases |actions|
  {
    && Conserved(s)
    && (actions != [] ==> AlwaysConserved(Next(s, actions[0], crypto), actions[1..], crypto))
  }

  ghost predicate NeverOverwrites(s: State, actions: seq<Action>, crypto: Crypto)
    requires Runs(s, actions, crypto)
    decreases |actions|
  {
    actions != [] ==>
      !Overwrites(s, actions[0], crypto) && NeverOverwrites(Next(s, actions[0], crypto), actions[1..], crypto)
  }

  /** What spending does, in terms of the codes that the login had read. */
  lemma SpendEffect(s: State, a: Action, crypto: Crypto)
    requires Spends(s, a, crypto)
    ensures var after, hash := Next(s, a, crypto), Result(s, a, crypto).1.hash;
            && Left(after.account) + multiset{hash} == Left(s.open[a.x])
            && after.issued == s.issued && after.spent == s.spent + multiset{hash}
  {
    hide Verify, HashBackupCode;
    RemoveFirstMultiset(s.open[a.x].backup.value, Result(s, a, crypto).1.hash);
  }

  lemma StepConservesExactly(s: State, a: Action, crypto: Crypto)
    requires Possible(s, a) && Conserved(s)
    ensures Conserved(Next(s, a, crypto)) <==> !Overwrites(s, a, crypto)
  {
    hide LoginStep, Step, Left, Switches;
    if Spends(s, a, crypto) {
      SpendEffect(s, a, crypto);
      var after, hash := Next(s, a, crypto), Result(s, a, crypto).1.hash;
      assert Left(after.account) + after.spent == Left(s.open[a.x]) + s.spent;
      Cancel(Left(s.open[a.x]), Left(s.account), s.spent);
    } else if a.Change? {
      if !Switches(s.account, a.event, a.now, crypto) {
        KeepsCodes(s.account, a.event, a.now, crypto);
      }
    }
  }

  lemma Cancel(a: multiset<Hash>, b: multiset<Hash>, c: multiset<Hash>)
    ensures a + c == b + c <==> a == b
  {
    assert (a + c) - c == a && (b + c) - c == b;
  }

  lemma KeepsCodes(a: Admin, event: Event, now: nat, crypto: Crypto)
    requires !event.TryLogin? && !Switches(a, event, now, crypto)
    ensures Left(Step(a, Timed(event, now), crypto).0) == Left(a)
  {
    hide Verify;
  }

  /** Whatever overlaps: at every moment the codes left and the codes spent are the codes issued
      if, and only if, no login spends a code when the codes are no longer those that it read. */
  lemma {:induction false} ConservedExactly(s: State, actions: seq<Action>, crypto: Crypto)
    requires Runs(s, actions, crypto) && Conserved(s)
    ensures AlwaysConserved(s, actions, crypto) <==> NeverOverwrites(s, actions, crypto)
    decreases |actions|
  {
    hide Next, Conserved, Overwrites, Possible;
    if actions != [] {
      StepConservesExactly(s, actions[0], crypto);
      var after := Next(s, actions[0], crypto);
      if Overwrites(s, actions[0], crypto) {
        ConservedNow(after, actions[1..], crypto);
      } else {
        ConservedExactly(after, actions[1..], crypto);
      }
    }
  }

  lemma ConservedNow(s: State, actions: seq<Action>, crypto: Crypto)
    requires Runs(s, actions, crypto)
    ensures AlwaysConserved(s, actions, crypto) ==> Conserved(s)
  {
  }

  /** While a login is under way, no other one starts and the account is not switched over. */
  ghost predicate OneAtATime(s: State, actions: seq<Action>, crypto: Crypto)
    requires Runs(s, actions, crypto)
    decreases |actions|
  {
    actions != [] ==>
      && (!actions[0].Finish? ==> s.open == map[])
      && OneAtATime(Next(s, actions[0], crypto), actions[1..], crypto)
  }

  ghost predicate AtMostOneOpen(s: State) {
    && (forall x, y :: x in s.open && y in s.open ==> x == y)
    && (forall x :: x in s.open ==> s.open[x] == s.account)
  }

  lemma SoleLoginIsCurrent(s: State, a: Action, crypto: Crypto)
    requires Possible(s, a) && AtMostOneOpen(s) && (!a.Finish? ==> s.open == map[])
    ensures !Overwrites(s, a, crypto) && AtMostOneOpen(Next(s, a, crypto))
  {
    hide LoginStep, Step;
  }

  /** What takes place one at a time spends no code more often than it was issued, and never more
      codes than were issued. */
  lemma {:induction false} BoundedOneAtATime(s: State, actions: seq<Action>, crypto: Crypto)
    requires Runs(s, actions, crypto) && Conserved(s)
    requires AtMostOneOpen(s) && OneAtATime(s, actions, crypto)
    ensures NeverOverwrites(s, actions, crypto)
    ensures var end := After(s, actions, crypto); end.spent <= end.issued && |end.spent| <= |end.issued|
    decreases |actions|
  {
    hide Next, Conserved, Overwrites, Possible, AtMostOneOpen;
    if actions == [] {
      SpentWasIssued(s);
    } else {
      SoleLoginIsCurrent(s, actions[0], crypto);
      StepConservesExactly(s, actions[0], crypto);
      BoundedOneAtATime(Next(s, actions[0], crypto), actions[1..], crypto);
    }
  }

  lemma SpentWasIssued(s: State)
    requires Conserved(s)
    ensures s.spent <= s.issued && |s.spent| <= |s.issued|
  {
    assert |Left(s.account) + s.spent| == |Left(s.account)| + |s.spent|;
  }

  // ------------------------------------------------------------ one code, many logins

  /** Just after two-factor was enabled. */
  function Enabled(a: Admin): State {
    State(a, map[], Left(a), multiset{})
  }

  /** Logins 1 to n all read the account. */
  function ReadAll(n: nat): seq<Action> {
    if n == 0 then [] else ReadAll(n - 1) + [Read(n)]
  }

  /** Then they all finish with the same code. */
  function FinishAll(n: nat, code: string, now: nat): seq<Action> {
    if n == 0 then [] else FinishAll(n - 1, code, now) + [Finish(n, code, now)]
  }

  ghost function Copies(n: nat, hash: Hash): multiset<Hash> {
    if n == 0 then multiset{} else Copies(n - 1, hash) + multiset{hash}
  }

  lemma {:induction false} CopiesCount(n: nat, hash: Hash)
    ensures Copies(n, hash)[hash] == n
  {
    if n > 0 {
      CopiesCount(n - 1, hash);
    }
  }

  lemma {:induction false} RunsAppend(s: State, a: seq<Action>, b: seq<Action>, crypto: Crypto)
    requires Runs(s, a, crypto)
    ensures Runs(s, a + b, crypto) <==> Runs(After(s, a, crypto), b, crypto)
    ensures Runs(s, a + b, crypto) ==> After(s, a + b, crypto) == After(After(s, a, crypto), b, crypto)
    decreases |a|
  {
    hide Next, Possible;
    if a == [] {
      assert a + b == b;
    } else {
      assert (a + b)[0] == a[0] && (a + b)[1..] == a[1..] + b;
      RunsAppend(Next(s, a[0], crypto), a[1..], b, crypto);
    }
  }

  lemma OneAction(s: State, a: Action, crypto: Crypto)
    requires Possible(s, a)
    ensures Runs(s, [a], crypto) && After(s, [a], crypto) == Next(s, a, crypto)
  {
    assert [a][1..] == [];
  }

  /** Every login from `first` on has read this account. */
  ghost function Waiting(a: Admin, first: nat, n: nat): map<LoginId, Admin> {
    map x | x in UpTo(n) && first < x :: a
  }

  lemma {:induction false} AllRead(a: Admin, n: nat, crypto: Crypto)
    ensures Runs(Enabled(a), ReadAll(n), crypto)
    ensures After(Enabled(a), ReadAll(n), crypto) == Enabled(a).(open := Waiting(a, 0, n))
  {
    if n == 0 {
      assert Waiting(a, 0, 0) == map[];
    } else {
      AllRead(a, n - 1, crypto);
      var before := Enabled(a).(open := Waiting(a, 0, n - 1));
      OneAction(before, Read(n), crypto);
      RunsAppend(Enabled(a), ReadAll(n - 1), [Read(n)], crypto);
      assert Waiting(a, 0, n - 1)[n := a] == Waiting(a, 0, n);
    }
  }

  /** The code is on the list, and is not mistaken for a one-time password. */
  ghost predicate WouldSpend(a: Admin, code: string, now: nat, crypto: Crypto) {
    a.enabled && LoginStep(a, crypto, code, now).1 == ByBackup(HashBackupCode(crypto, code))
  }

  lemma OneSpends(s: State, x: LoginId, a: Admin, code: string, now: nat, crypto: Crypto)
    requires x in s.open && s.open[x] == a && WouldSpend(a, code, now, crypto)
    ensures var after := Next(s, Finish(x, code, now), crypto);
            after.open == s.open - {x} && after.spent == s.spent + multiset{HashBackupCode(crypto, code)}
  {
    hide LoginStep, HashBackupCode;
  }

  lemma {:induction false} AllFinish(a: Admin, j: nat, n: nat, code: string, now: nat, crypto: Crypto)
    requires j <= n && WouldSpend(a, code, now, crypto)
    ensures var s, acts := Enabled(a).(open := Waiting(a, 0, n)), FinishAll(j, code, now);
            && Runs(s, acts, crypto)
            && After(s, acts, crypto).open == Waiting(a, j, n)
            && After(s, acts, crypto).spent == Copies(j, HashBackupCode(crypto, code))
  {
    hide LoginStep, HashBackupCode, Next;
    var s := Enabled(a).(open := Waiting(a, 0, n));
    if j > 0 {
      AllFinish(a, j - 1, n, code, now, crypto);
      var before := After(s, FinishAll(j - 1, code, now), crypto);
      OneAction(before, Finish(j, code, now), crypto);
      OneSpends(before, j, a, code, now, crypto);
      RunsAppend(s, FinishAll(j - 1, code, now), [Finish(j, code, now)], crypto);
      assert Waiting(a, j - 1, n) - {j} == Waiting(a, j, n);
    }
  }

  /** Without that condition one recovery code is good for any number of logins, however often it
      was issued: n logins that all read the account before the first of them writes. */
  lemma OneCodeManyLogins(a: Admin, n: nat, code: string, now: nat, crypto: Crypto)
    requires WouldSpend(a, code, now, crypto)
    ensures var s, acts := Enabled(a), ReadAll(n) + FinishAll(n, code, now);
            Runs(s, acts, crypto) && After(s, acts, crypto).spent[HashBackupCode(crypto, code)] == n
  {
    hide LoginStep, HashBackupCode, Next, Possible;
    AllRead(a, n, crypto);
    AllFinish(a, n, n, code, now, crypto);
    RunsAppend(Enabled(a), ReadAll(n), FinishAll(n, code, now), crypto);
    CopiesCount(n, HashBackupCode(crypto, code));
  }

  // ------------------------------------------------------------ withdrawn codes come back

  /** A login starts, two-factor is disabled, set up and enabled anew, and the login finishes. */
  function ReEnabled(raw: Bytes, proof: string, issued: seq<string>, code: string, now: nat): seq<Action> {
    [Read(1), Change(Disable(true), now), Change(Setup(raw), now), Change(Enable(proof, issued), now),
     Finish(1, code, now)]
  }

  /** Then the codes that were withdrawn are stored again, less the one just spent, in the place of
      the new ones, under the new secret. */
  lemma WithdrawnCodesComeBack(a: Admin, raw: Bytes, proof: string, issued: seq<string>, code: string, now: nat,
                               crypto: Crypto)
    requires WouldSpend(a, code, now, crypto)
    requires Secret(raw) != "" && Verify(crypto, Secret(raw), proof, now) == Accepted
    ensures var acts := ReEnabled(raw, proof, issued, code, now);
            && Runs(Enabled(a), acts, crypto)
            && var end := After(Enabled(a), acts, crypto);
               && end.account.enabled && end.account.secret == Some(Secret(raw))
               && Left(end.account) + multiset{HashBackupCode(crypto, code)} == Left(a)
  {
    hide Verify, Secret, HashBackupCode, LoginStep;
    var s1 := Next(Enabled(a), Read(1), crypto);
    var s2 := Next(s1, Change(Disable(true), now), crypto);
    assert s2.account == Admin(None, false, None) && s2.open == map[1 := a];
    var s3 := Next(s2, Change(Setup(raw), now), crypto);
    assert s3.account == Admin(Some(Secret(raw)), false, None) && s3.open == map[1 := a];
    var s4 := Next(s3, Change(Enable(proof, issued), now), crypto);
    assert s4.account == Admin(Some(Secret(raw)), true, Some(Hashes(crypto, issued))) && s4.open == map[1 := a];
    SpendEffect(s4, Finish(1, code, now), crypto);
    hide Next;
    Chain(s4, Finish(1, code, now), [], crypto);
    Chain(s3, Change(Enable(proof, issued), now), [Finish(1, code, now)], crypto);
    Chain(s2, Change(Setup(raw), now), [Change(Enable(proof, issued), now), Finish(1, code, now)], crypto);
    Chain(s1, Change(Disable(true), now),
          [Change(Setup(raw), now), Change(Enable(proof, issued), now), Finish(1, code, now)], crypto);
    Chain(Enabled(a), Read(1),
          [Change(Disable(true), now), Change(Setup(raw), now), Change(Enable(proof, issued), now),
           Finish(1, code, now)], crypto);
  }

  lemma Chain(s: State, a: Action, rest: seq<Action>, crypto: Crypto)
    requires Possible(s, a) && Runs(Next(s, a, crypto), rest, crypto)
    ensures Runs(s, [a] + rest, crypto)
    ensures After(s, [a] + rest, crypto) == After(Next(s, a, crypto), rest, crypto)
  {
    assert ([a] + rest)[1..] == rest;
  }
}
