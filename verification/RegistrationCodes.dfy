/** Two-phase registrations against codes that are used up, expire or are revoked meanwhile. */
module RegistrationCodes {
  import opened Basics
  import opened Schema
  import opened Services
  import opened Database
  import opened TeamRoutes
  import opened SubmitRoute
  import opened AuthRoutes
  import opened AdminRoutes
  import opened Contest
  import opened WriteSets

  type Codes = map<nat, Code>

  /** The accounts that were committed through a code. */
  function AdmittedThrough(admissions: seq<Admission>, code: nat): nat {
    if admissions == [] then 0
    else var n := |admissions| - 1;
      AdmittedThrough(admissions[..n], code) + (if admissions[n].code == Some(code) then 1 else 0)
  }

  function AdmittedUsers(admissions: seq<Admission>): set<Id> {
    if admissions == [] then {} else var n := |admissions| - 1; AdmittedUsers(admissions[..n]) + {admissions[n].user}
  }

  /** Use counts are true and within bounds. */
  ghost predicate CodesTrue(r: Registry) {
    forall k :: k in r.codes ==>
      r.codes[k].uses == AdmittedThrough(r.admissions, k)
        && (r.codes[k].maxUses.Some? ==> r.codes[k].uses <= r.codes[k].maxUses.value)
  }

  ghost predicate Drawn(r: Registry, next: nat) {
    && (forall k :: k in r.codes ==> k < next)
    && (forall i :: 0 <= i < |r.admissions| ==> r.admissions[i].code.Some? ==> r.admissions[i].code.value in r.codes)
  }

  /** The participants are exactly the admitted users, each admitted once. */
  ghost predicate EveryoneAdmitted(users: map<Id, User>, admissions: seq<Admission>) {
    AdmittedUsers(admissions) == Participants(users) && |admissions| == |Participants(users)|
  }

  ghost predicate RegInv(db: Db) {
    && (forall u :: u in db.accounts.users ==> u < db.next)
    && CodesTrue(db.registry) && Drawn(db.registry, db.next)
       && EveryoneAdmitted(db.accounts.users, db.registry.admissions)
  }

  /** Withdrawn, expired or used up. */
  predicate Worn(code: Code, now: Time) {
    || !code.active || code.revokedAt.Some?
    || (code.expires.Some? && code.expires.value <= now)
    || (code.maxUses.Some? && code.uses >= code.maxUses.value)
  }

  // ---------- one admission ----------

  lemma AppendAdmission(admissions: seq<Admission>, a: Admission, code: nat)
    ensures AdmittedThrough(admissions + [a], code)
            == AdmittedThrough(admissions, code) + (if a.code == Some(code) then 1 else 0)
    ensures AdmittedUsers(admissions + [a]) == AdmittedUsers(admissions) + {a.user}
  {
    assert (admissions + [a])[..|admissions|] == admissions;
  }

  lemma {:induction false} NobodyThroughUnknown(admissions: seq<Admission>, code: nat)
    requires forall i :: 0 <= i < |admissions| ==> admissions[i].code != Some(code)
    ensures AdmittedThrough(admissions, code) == 0
  {
    if admissions != [] { NobodyThroughUnknown(admissions[..|admissions| - 1], code); }
  }

  lemma AdmitKeepsCodes(r: Registry, next: nat, a: Admission)
    requires CodesTrue(r) && Drawn(r, next)
    requires a.code.Some? ==>
               a.code.value in r.codes
                 && (r.codes[a.code.value].maxUses.Some? ==>
                       r.codes[a.code.value].uses < r.codes[a.code.value].maxUses.value)
    ensures var r' := Registry(UseCode(r.codes, a.code), r.admissions + [a]); CodesTrue(r') && Drawn(r', next)
  {
    var r' := Registry(UseCode(r.codes, a.code), r.admissions + [a]);
    forall k | k in r'.codes
      ensures r'.codes[k].uses == AdmittedThrough(r'.admissions, k)
              && (r'.codes[k].maxUses.Some? ==> r'.codes[k].uses <= r'.codes[k].maxUses.value)
    {
      AppendAdmission(r.admissions, a, k);
    }
  }

  lemma AdmitKeepsUsers(users: map<Id, User>, admissions: seq<Admission>, a: Admission, u: User)
    requires EveryoneAdmitted(users, admissions) && a.user !in users && u.role == Participant
    ensures EveryoneAdmitted(users[a.user := u], admissions + [a])
  {
    AppendAdmission(admissions, a, 0);
    assert Participants(users[a.user := u]) == Participants(users) + {a.user};
  }

  /** The code under which a registration may commit. */
  lemma MayRegisterCode(db: Db, email: Name, username: Name, access: Option<nat>)
    requires MayRegister(db, email, username, access).Success?
    ensures var code := MayRegister(db, email, username, access).value;
            && AllowsRegistration(db.event, db.now)
            && (code.Some? <==> db.event.access == CodeOnly)
            && (code.Some? ==>
                  code == access && code.value in db.registry.codes && !Worn(db.registry.codes[code.value], db.now))
            && !AccountTaken(db.accounts.users, email, username)
               && |Participants(db.accounts.users)| < MAX_PARTICIPANT_USERS
  {
    hide AllowsRegistration, AccountTaken;
  }

  lemma RegisterFinishKeeps(db: Db, r: nat, suffix: string)
    requires RegInv(db)
    ensures RegInv(RegisterFinish(db, r, suffix).0)
  {
    var db' := RegisterFinish(db, r, suffix).0;
    if RegisterFinish(db, r, suffix).1.SignedIn? {
      var f := db.flights[r];
      MayRegisterCode(db, f.email, f.username, f.access);
      var code := MayRegister(db, f.email, f.username, f.access).value;
      var a := Admission(db.next, code);
      hide MayRegister, NameTaken, AddSession, UseCode, CodesTrue, Drawn, EveryoneAdmitted;
      AdmitKeepsCodes(db.registry, db.next, a);
      AdmitKeepsUsers(db.accounts.users, db.registry.admissions, a, db'.accounts.users[db.next]);
      DrawnStays(db'.registry, db.next, db'.next);
    } else {
      hide MayRegister, NameTaken, AddSession, UseCode, RegInv;
    }
  }

  lemma DrawnStays(r: Registry, next: nat, later: nat)
    requires Drawn(r, next) && next <= later
    ensures Drawn(r, later)
  {
  }

  lemma CodeEditKeeps(db: Db, c: Command)
    requires RegInv(db) && (c.DoCreateCode? || c.DoRevokeCode?)
    ensures RegInv(HandleSetup(db, c).0)
  {
    hide EveryoneAdmitted;
    if c.DoCreateCode? {
      NobodyThroughUnknown(db.registry.admissions, db.next);
    }
  }

  lemma RegistryUntouched(c: Command)
    requires !c.DoCreateCode? && !c.DoRevokeCode? && !c.DoRegisterFinish?
    ensures !WriteSet(c).registry
  {
  }

  lemma HandleKeepsReg(db: Db, c: Command)
    requires RegInv(db)
    ensures RegInv(Handle(db, c).0)
  {
    hide Handle, HandleTeams, HandleBegin, HandleAccounts, HandleSetup, RegisterFinish, LoginAttempt, PasswordAttempt,
         SubmitFlag, UpdateEvent, RegInv, WriteSet;
    HandleIs(db, c);
    if c.DoCreateCode? || c.DoRevokeCode? {
      CodeEditKeeps(db, c);
    } else if c.DoRegisterFinish? {
      RegisterFinishKeeps(db, c.r, c.suffix);
    } else {
      HandleWrites(db, c);
      HandleAges(db, c);
      RegistryUntouched(c);
      OthersKeepReg(db, Handle(db, c).0);
    }
  }

  lemma OthersKeepReg(db: Db, db': Db)
    requires RegInv(db) && db'.registry == db.registry && db.next <= db'.next
    requires AccountsAge(db.accounts.users, db'.accounts.users)
    ensures RegInv(db')
  {
    hide CodesTrue;
    assert Participants(db'.accounts.users) == Participants(db.accounts.users);
  }

  lemma StepKeepsReg(db: Db, c: Command)
    requires RegInv(db)
    ensures RegInv(Step(db, c))
  {
    hide Handle, Step, CodesTrue, EveryoneAdmitted;
    HandleKeepsReg(db, c);
    StepCloses(db, c);
  }

  lemma {:induction false} RunKeepsReg(db: Db, commands: seq<Command>)
    requires RegInv(db)
    ensures RegInv(Run(db, commands))
  {
    hide RegInv, Step;
    if commands != [] {
      RunKeepsReg(db, commands[..|commands| - 1]);
      StepKeepsReg(Run(db, commands[..|commands| - 1]), commands[|commands| - 1]);
    }
  }

  lemma BootstrappedReg(db: Db)
    requires Bootstrapped(db)
    ensures RegInv(db)
  {
    assert Participants(db.accounts.users) == {};
  }

  /** Over all runs a code's use count is the number of accounts committed through it and never exceeds its
      maximum, and the participants are exactly the users admitted, once each. */
  lemma UsesAreAdmissions(db: Db, commands: seq<Command>)
    requires Bootstrapped(db)
    ensures RegInv(Run(db, commands))
  {
    hide RegInv, Run, Bootstrapped;
    BootstrappedReg(db);
    RunKeepsReg(db, commands);
  }

  /** A registration that ends in a refusal leaves nothing behind. One that succeeds leaves, together, the
      account, a session that is accepted at once, its admission, and in an individual event its own team; it went
      through a code just when the event demands one, and that code was usable at that moment. */
  lemma RegistrationIsAllOrNothing(db: Db, r: nat, suffix: string)
    ensures var (db', answer) := RegisterFinish(db, r, suffix);
            && (answer.Refused? ==> db' == db)
            && (answer.SignedIn? ==>
                  && db.next in db'.accounts.users && db'.accounts.users[db.next].role == Participant
                  && answer.token in db'.accounts.sessions && db'.accounts.sessions[answer.token].user == db.next
                  && (db.config.sessionTtl > 0.0 ==> Accepts(db', answer.token))
                  && (db.event.mode == Individual ==>
                        OwnersOf(db'.roster.members, db.next + 1) >= {db.next} && db.next + 1 in db'.roster.teams)
                  && exists code: Option<nat> ::
                       && db'.registry.admissions == db.registry.admissions + [Admission(db.next, code)]
                       && (code.Some? <==> db.event.access == CodeOnly)
                       && (code.Some? ==>
                             code.value in db.registry.codes && !Worn(db.registry.codes[code.value], db.now)))
  {
    hide Worn, CodeUsable, AccountTaken, AllowsRegistration, Participants, NameTaken, UseCode, Excess;
    var (db', answer) := RegisterFinish(db, r, suffix);
    if answer.SignedIn? {
      var f := db.flights[r];
      MayRegisterCode(db, f.email, f.username, f.access);
      hide MayRegister;
      var code := MayRegister(db, f.email, f.username, f.access).value;
      assert db'.registry.admissions == db.registry.admissions + [Admission(db.next, code)];
    }
  }

  // ---------- a spent code stays spent ----------

  predicate Spent(db: Db, k: nat) {
    k in db.registry.codes && Worn(db.registry.codes[k], db.now)
  }

  /** A code only ever loses: it gains uses and may be revoked. */
  predicate Wears(a: Code, b: Code) {
    && b.maxUses == a.maxUses && b.expires == a.expires && a.uses <= b.uses
    && (b.active ==> a.active) && (a.revokedAt.Some? ==> b.revokedAt.Some?)
  }

  lemma RegisterFinishSpares(db: Db, r: nat, suffix: string, k: nat)
    requires Spent(db, k)
    ensures var db' := RegisterFinish(db, r, suffix).0;
            && k in db'.registry.codes && Wears(db.registry.codes[k], db'.registry.codes[k])
            && AdmittedThrough(db'.registry.admissions, k) == AdmittedThrough(db.registry.admissions, k)
  {
    hide Worn, CodeUsable, AccountTaken, AllowsRegistration, NameTaken, AddSession, AdmittedThrough, Participants;
    if RegisterFinish(db, r, suffix).1.SignedIn? {
      var f := db.flights[r];
      MayRegisterCode(db, f.email, f.username, f.access);
      hide MayRegister;
      var code := MayRegister(db, f.email, f.username, f.access).value;
      AppendAdmission(db.registry.admissions, Admission(db.next, code), k);
    } else {
      hide MayRegister;
    }
  }

  lemma CodeEditWears(db: Db, c: Command, k: nat)
    requires RegInv(db) && Spent(db, k) && (c.DoCreateCode? || c.DoRevokeCode?)
    ensures var db' := HandleSetup(db, c).0;
            && k in db'.registry.codes && Wears(db.registry.codes[k], db'.registry.codes[k])
            && db'.registry.admissions == db.registry.admissions
  {
    hide CodesTrue, EveryoneAdmitted;
  }

  lemma HandleWears(db: Db, c: Command, k: nat)
    requires RegInv(db) && Spent(db, k)
    ensures var db' := Handle(db, c).0;
            && k in db'.registry.codes && Wears(db.registry.codes[k], db'.registry.codes[k])
            && AdmittedThrough(db'.registry.admissions, k) == AdmittedThrough(db.registry.admissions, k)
  {
    hide Handle, HandleTeams, HandleBegin, HandleAccounts, HandleSetup, RegisterFinish, LoginAttempt, PasswordAttempt,
         SubmitFlag, UpdateEvent, RegInv, AdmittedThrough;
    HandleIs(db, c);
    if c.DoRegisterFinish? {
      RegisterFinishSpares(db, c.r, c.suffix, k);
    } else if c.DoCreateCode? || c.DoRevokeCode? {
      CodeEditWears(db, c, k);
    } else {
      HandleWrites(db, c);
    }
  }

  lemma StepKeepsSpent(db: Db, c: Command, k: nat)
    requires RegInv(db) && Spent(db, k) && Timely(db, c)
    ensures Spent(Step(db, c), k)
    ensures AdmittedThrough(Step(db, c).registry.admissions, k) == AdmittedThrough(db.registry.admissions, k)
  {
    ClockAdvances(db, c);
    hide Handle, Step, RegInv, AdmittedThrough;
    HandleWears(db, c, k);
    StepCloses(db, c);
  }

  lemma ClockAdvances(db: Db, c: Command)
    requires Timely(db, c)
    ensures db.now <= Handle(db, c).0.now
  {
    if !c.Elapse? {
      hide Handle;
      HandleWrites(db, c);
    }
  }

  /** A new code is not spent, unless it was asked to be, and has admitted nobody. */
  lemma NewCodeAdmits(db: Db, maxUses: Option<nat>, expires: Option<Time>)
    requires RegInv(db) && db.event.state != Archived
    ensures var (db', answer) := CreateCode(db, maxUses, expires);
            && answer.Invite? && answer.newInvite !in db.registry.codes && answer.newInvite in db'.registry.codes
            && AdmittedThrough(db'.registry.admissions, answer.newInvite) == 0
            && (Spent(db', answer.newInvite) <==> maxUses == Some(0) || (expires.Some? && expires.value <= db.now))
  {
    hide EveryoneAdmitted;
    NobodyThroughUnknown(db.registry.admissions, db.next);
  }

  /** A code that is revoked, expired or used up admits nobody at any later step. */
  lemma {:induction false} SpentCodeAdmitsNobody(db: Db, commands: seq<Command>, k: nat)
    requires RegInv(db) && Spent(db, k) && TimelyRun(db, commands)
    ensures var end := Run(db, commands);
            Spent(end, k) && AdmittedThrough(end.registry.admissions, k) == AdmittedThrough(db.registry.admissions, k)
  {
    hide RegInv, Spent, Step, Timely, AdmittedThrough;
    if commands != [] {
      var n := |commands| - 1;
      TimelyPrefix(db, commands, n);
      SpentCodeAdmitsNobody(db, commands[..n], k);
      RunKeepsReg(db, commands[..n]);
      assert Timely(Run(db, commands[..n]), commands[n]);
      StepKeepsSpent(Run(db, commands[..n]), commands[n], k);
    }
  }
}
