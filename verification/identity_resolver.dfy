/** The identity resolver of internal/authletas/resolver.go over the tenant_users table: logins are anchored
    on the (issuer, subject) pair of OpenID Connect Core 1.0 section 5.7, with email as a mutable attribute.
    Each Resolve call is atomic. */
module IdentityResolver {
  import opened Wrappers

  type Id = string

  /** issuer and subject are nullable columns, unique together when both are set; email is unique. */
  datatype Row = Row(email: string, issuer: Option<string>, subject: Option<string>)

  type Users = map<Id, Row>

  datatype Claims = Claims(issuer: string, subject: string, email: string, emailVerified: bool)

  /** What the provisioning callback does for a login whose anchors both miss: it is absent, refuses, fails,
      or creates the owner row with a new id. */
  datatype Hook = NoHook | NotAllowed | Fails | Creates(id: Id)

  datatype Reject = EmailEmpty | EmailUnverified | TenantNotFound | DbError | Refused | SubjectMismatch

  predicate HasIdentity(c: Claims) {
    c.issuer != "" && c.subject != ""
  }

  predicate Anchored(r: Row, issuer: string, subject: string) {
    r.issuer == Some(issuer) && r.subject == Some(subject)
  }

  /** A subject column that is neither null nor empty: the row belongs to that identity. */
  predicate Taken(r: Row) {
    r.subject.Some? && r.subject.value != ""
  }

  predicate SamePair(r: Row, s: Row) {
    r.issuer.Some? && r.subject.Some? && r.issuer == s.issuer && r.subject == s.subject
  }

  /** The two unique indexes of the table. */
  ghost predicate Unique(users: Users) {
    && (forall i, k :: i in users && k in users && users[i].email == users[k].email ==> i == k)
    && (forall i, k :: i in users && k in users && SamePair(users[i], users[k]) ==> i == k)
  }

  // ----- what one call does to the table

  ghost function BySubject(users: Users, issuer: string, subject: string): Option<Id> {
    if i :| i in users && Anchored(users[i], issuer, subject) then Some(i) else None
  }

  ghost function ByEmail(users: Users, email: string): Option<Id> {
    if i :| i in users && users[i].email == email then Some(i) else None
  }

  ghost function Refreshed(users: Users, id: Id, email: string): Users
    requires id in users
  {
    if email == "" || ByEmail(users, email).Some? then users else users[id := users[id].(email := email)]
  }

  ghost function Stamped(users: Users, id: Id, c: Claims): Users
    requires id in users
  {
    if users[id].subject.Some? || BySubject(users, c.issuer, c.subject).Some? then users
    else users[id := users[id].(issuer := Some(c.issuer), subject := Some(c.subject))]
  }

  datatype EmailMatch = Miss | Mismatch | Match(id: Id)

  ghost function EmailMatched(users: Users, c: Claims): EmailMatch {
    match ByEmail(users, c.email)
    case None => Miss
    case Some(id) =>
      if id !in users then Miss
      else if Taken(users[id]) && !(HasIdentity(c) && Anchored(users[id], c.issuer, c.subject)) then Mismatch
      else Match(id)
  }

  ghost function Adopted(users: Users, c: Claims): Users {
    var m := EmailMatched(users, c);
    if m.Match? && m.id in users && !Taken(users[m.id]) && HasIdentity(c) then Stamped(users, m.id, c) else users
  }

  function Owner(c: Claims): Row {
    if HasIdentity(c) then Row(c.email, Some(c.issuer), Some(c.subject)) else Row(c.email, None, None)
  }

  class Resolver {
    var users: Users

    constructor (users: Users)
      ensures this.users == users
    {
      this.users := users;
    }

    method LookupBySubject(issuer: string, subject: string) returns (row: Option<Id>)
      ensures row.Some? ==> row.value in users && Anchored(users[row.value], issuer, subject)
      ensures row.None? ==> forall i :: i in users ==> !Anchored(users[i], issuer, subject)
    {
      if exists i :: i in users && Anchored(users[i], issuer, subject) {
        var i :| i in users && Anchored(users[i], issuer, subject);
        return Some(i);
      }
      return None;
    }

    method LookupByEmail(email: string) returns (row: Option<Id>)
      ensures row.Some? ==> row.value in users && users[row.value].email == email
      ensures row.None? ==> forall i :: i in users ==> users[i].email != email
    {
      if exists i :: i in users && users[i].email == email {
        var i :| i in users && users[i].email == email;
        return Some(i);
      }
      return None;
    }

    /** An update that would break a unique index fails and is only logged. */
    method RefreshEmail(id: Id, newEmail: string)
      requires Unique(users) && id in users
      modifies this
      ensures users == Refreshed(old(users), id, newEmail)
    {
      if newEmail == "" || newEmail == users[id].email {
        return;
      }
      var holder := LookupByEmail(newEmail);
      if holder.None? {
        users := users[id := users[id].(email := newEmail)];
      }
    }

    method StampSubject(id: Id, c: Claims)
      requires id in users
      modifies this
      ensures users == Stamped(old(users), id, c)
    {
      if users[id].subject.None? {
        var holder := LookupBySubject(c.issuer, c.subject);
        if holder.None? {
          users := users[id := users[id].(issuer := Some(c.issuer), subject := Some(c.subject))];
        }
      }
    }

    method ResolveEmailAnchored(c: Claims) returns (m: EmailMatch)
      requires Unique(users)
      modifies this
      ensures m == EmailMatched(old(users), c) && users == Adopted(old(users), c)
    {
      var row := LookupByEmail(c.email);
      if row.None? {
        return Miss;
      }
      var id := row.value;
      if users[id].subject.Some? && users[id].subject.value != "" {
        if HasIdentity(c) && users[id].issuer.Some? && users[id].issuer.value == c.issuer && users[id].subject.value == c.subject {
          return Match(id);
        }
        return Mismatch;
      }
      if HasIdentity(c) {
        StampSubject(id, c);
      }
      return Match(id);
    }

    method Resolve(c: Claims, hook: Hook) returns (res: Result<Id, Reject>)
      requires Unique(users) && (hook.Creates? ==> hook.id !in users)
      modifies this
      ensures (users, res) == Login(old(users), c, hook)
      ensures res.Failure? ==> users == old(users)
      ensures res.Success? ==> users.Keys == old(users).Keys + {res.value}
                               && forall k :: k in old(users) && k != res.value ==> users[k] == old(users)[k]
    {
      RejectedLeavesTable(users, c, hook);
      if Login(users, c, hook).1.Success? {
        SuccessTouchesOne(users, c, hook);
      }
      if c.email == "" {
        return Failure(EmailEmpty);
      }
      if !c.emailVerified {
        return Failure(EmailUnverified);
      }
      if HasIdentity(c) {
        var row := LookupBySubject(c.issuer, c.subject);
        if row.Some? {
          RefreshEmail(row.value, c.email);
          return Success(row.value);
        }
      }
      var m := ResolveEmailAnchored(c);
      if m.Mismatch? {
        return Failure(SubjectMismatch);
      }
      if m.Match? {
        return Success(m.id);
      }
      match hook {
        case NoHook => return Failure(TenantNotFound);
        case NotAllowed => return Failure(Refused);
        case Fails => return Failure(DbError);
        case Creates(id) =>
          LoginCreates(users, c, id);
          users := users[id := Owner(c)];
          m := ResolveEmailAnchored(c);
          if m.Match? {
            return Success(m.id);
          }
          return Failure(SubjectMismatch);
      }
    }
  }

  /** The whole effect of one Resolve call, by which anchor hits. */
  ghost function Login(users: Users, c: Claims, hook: Hook): (Users, Result<Id, Reject>) {
    if c.email == "" then (users, Failure(EmailEmpty))
    else if !c.emailVerified then (users, Failure(EmailUnverified))
    else
      var bySubject := BySubject(users, c.issuer, c.subject);
      if HasIdentity(c) && bySubject.Some? then (Refreshed(users, bySubject.value, c.email), Success(bySubject.value))
      else match EmailMatched(users, c)
           case Mismatch => (users, Failure(SubjectMismatch))
           case Match(id) => (Adopted(users, c), Success(id))
           case Miss =>
             match hook
             case NoHook => (users, Failure(TenantNotFound))
             case NotAllowed => (users, Failure(Refused))
             case Fails => (users, Failure(DbError))
             case Creates(id) => (users[id := Owner(c)], Success(id))
  }

  /** Right after the owner row is created, the second email lookup finds it and changes nothing. */
  lemma {:induction false} LoginCreates(users: Users, c: Claims, id: Id)
    requires Unique(users) && id !in users && EmailMatched(users, c).Miss?
    requires HasIdentity(c) ==> BySubject(users, c.issuer, c.subject).None?
    ensures var created := users[id := Owner(c)];
            Unique(created) && EmailMatched(created, c) == Match(id) && Adopted(created, c) == created
  {
    var created := users[id := Owner(c)];
    assert ByEmail(users, c.email).None?;
    assert created[id].email == c.email;
  }

  // ----- what every call keeps

  /** An empty, non-null subject: it reads as no anchor, but the guard of the stamping update excludes it. */
  predicate BlankSubject(r: Row) {
    r.subject == Some("")
  }

  ghost predicate NoBlankSubject(users: Users) {
    forall i :: i in users ==> !BlankSubject(users[i])
  }

  /** Rows stay, and a row with a subject keeps its (issuer, subject) pair. */
  ghost predicate KeepsAnchors(before: Users, after: Users) {
    forall i :: i in before ==>
      i in after && (before[i].subject.Some? ==> after[i].issuer == before[i].issuer && after[i].subject == before[i].subject)
  }

  lemma {:induction false} RefreshKeeps(users: Users, id: Id, email: string)
    requires Unique(users) && id in users
    ensures var after := Refreshed(users, id, email);
            Unique(after) && KeepsAnchors(users, after) && (NoBlankSubject(users) ==> NoBlankSubject(after))
  {
    var after := Refreshed(users, id, email);
    if after != users {
      forall i, k | i in after && k in after && after[i].email == after[k].email
        ensures i == k
      {
      }
      forall i, k | i in after && k in after && SamePair(after[i], after[k])
        ensures i == k
      {
        assert SamePair(users[i], users[k]);
      }
    }
  }

  lemma {:induction false} StampKeeps(users: Users, id: Id, c: Claims)
    requires Unique(users) && id in users && HasIdentity(c)
    ensures var after := Stamped(users, id, c);
            Unique(after) && KeepsAnchors(users, after) && (NoBlankSubject(users) ==> NoBlankSubject(after))
  {
    var after := Stamped(users, id, c);
    if after != users {
      forall i, k | i in after && k in after && SamePair(after[i], after[k])
        ensures i == k
      {
        assert i != id && k != id ==> SamePair(users[i], users[k]);
      }
    }
  }

  lemma {:induction false} LoginKeeps(users: Users, c: Claims, hook: Hook)
    requires Unique(users) && (hook.Creates? ==> hook.id !in users)
    ensures var after := Login(users, c, hook).0;
            Unique(after) && KeepsAnchors(users, after) && (NoBlankSubject(users) ==> NoBlankSubject(after))
  {
    if c.email != "" && c.emailVerified {
      var bySubject := BySubject(users, c.issuer, c.subject);
      if HasIdentity(c) && bySubject.Some? {
        RefreshKeeps(users, bySubject.value, c.email);
      } else {
        var m := EmailMatched(users, c);
        if m.Match? && HasIdentity(c) {
          StampKeeps(users, m.id, c);
        } else if m.Miss? && hook.Creates? {
          LoginCreates(users, c, hook.id);
        }
      }
    }
  }

  /** A login with a full identity that succeeds leaves the row it returned anchored to that identity exactly
      when the row's subject is not blank. */
  lemma {:induction false} LoginAnchors(users: Users, c: Claims, hook: Hook)
    requires Unique(users) && (hook.Creates? ==> hook.id !in users)
    requires HasIdentity(c) && Login(users, c, hook).1.Success?
    ensures var (after, res) := Login(users, c, hook);
            res.value in after && (Anchored(after[res.value], c.issuer, c.subject) <==> !BlankSubject(after[res.value]))
  {
  }

  /** A row that belongs to an identity never authenticates another one, nor a login without identity. */
  lemma {:induction false} FailsClosed(users: Users, c: Claims, hook: Hook)
    requires Unique(users) && (hook.Creates? ==> hook.id !in users)
    requires Login(users, c, hook).1.Success?
    ensures var id := Login(users, c, hook).1.value;
            id in users && Taken(users[id]) ==> HasIdentity(c) && Anchored(users[id], c.issuer, c.subject)
  {
  }

  /** An identity that is anchored in the table always resolves to its row, whatever its email is now. */
  lemma {:induction false} AnchorResolves(users: Users, c: Claims, hook: Hook, id: Id)
    requires Unique(users) && (hook.Creates? ==> hook.id !in users)
    requires HasIdentity(c) && c.email != "" && c.emailVerified
    requires id in users && Anchored(users[id], c.issuer, c.subject)
    ensures Login(users, c, hook).1 == Success(id)
  {
    var found := BySubject(users, c.issuer, c.subject);
    assert found.Some? && SamePair(users[found.value], users[id]);
  }

  /** Who gets in: a verified email, and an anchored identity, or a row of that email that belongs to nobody,
      or a callback that provisions an email nobody has. */
  lemma {:induction false} AdmittedIff(users: Users, c: Claims, hook: Hook)
    requires Unique(users) && (hook.Creates? ==> hook.id !in users)
    ensures Login(users, c, hook).1.Success? <==>
            && c.email != "" && c.emailVerified
            && (|| (HasIdentity(c) && exists i :: i in users && Anchored(users[i], c.issuer, c.subject))
                || (exists i :: i in users && users[i].email == c.email && !Taken(users[i]))
                || (hook.Creates? && forall i :: i in users ==> users[i].email != c.email))
  {
    var byEmail := ByEmail(users, c.email);
    assert byEmail.Some? ==> forall i :: i in users && users[i].email == c.email ==> i == byEmail.value;
    if byEmail.Some? && HasIdentity(c) && Anchored(users[byEmail.value], c.issuer, c.subject) {
      AnchorFound(users, c, byEmail.value);
    }
  }

  lemma {:induction false} AnchorFound(users: Users, c: Claims, id: Id)
    requires id in users && Anchored(users[id], c.issuer, c.subject)
    ensures BySubject(users, c.issuer, c.subject).Some?
  {
  }

  /** The email of an anchored row follows the claim unless another row has it; nothing else changes. */
  lemma {:induction false} EmailFollows(users: Users, c: Claims, hook: Hook, id: Id)
    requires Unique(users) && (hook.Creates? ==> hook.id !in users)
    requires c.issuer != "" && c.subject != "" && c.email != "" && c.emailVerified
    requires id in users && users[id].issuer == Some(c.issuer) && users[id].subject == Some(c.subject)
    ensures Login(users, c, hook).1 == Success(id)
    ensures var free := forall k :: k in users && k != id ==> users[k].email != c.email;
            Login(users, c, hook).0 == users[id := users[id].(email := if free then c.email else users[id].email)]
  {
    AnchorResolves(users, c, hook, id);
    var holder := ByEmail(users, c.email);
    assert holder.Some? ==> holder.value in users && users[holder.value].email == c.email;
  }

  // ----- one login, on the fields of the rows

  /** A login that is turned away leaves the table alone. */
  lemma {:induction false} RejectedLeavesTable(users: Users, c: Claims, hook: Hook)
    requires Unique(users)
    ensures Login(users, c, hook).1.Failure? ==> Login(users, c, hook).0 == users
    ensures c.email == "" || !c.emailVerified ==>
              Login(users, c, hook) == (users, Failure(if c.email == "" then EmailEmpty else EmailUnverified))
  {
  }

  /** One that succeeds changes the row it returns and no other, and adds no other. */
  lemma {:induction false} SuccessTouchesOne(users: Users, c: Claims, hook: Hook)
    requires Unique(users) && (hook.Creates? ==> hook.id !in users) && Login(users, c, hook).1.Success?
    ensures var (after, id) := (Login(users, c, hook).0, Login(users, c, hook).1.value);
            && after.Keys == users.Keys + {id}
            && (forall k :: k in users && k != id ==> after[k] == users[k])
            && (id in users && users[id].subject.Some? ==>
                      after[id].issuer == users[id].issuer && after[id].subject == users[id].subject)
            && (id !in users ==> hook == Creates(id))
  {
  }

  /** No row is anchored to the identity, or the login has none. */
  ghost predicate Unanchored(users: Users, c: Claims) {
    c.issuer == "" || c.subject == "" || forall i :: i in users ==>
              users[i].issuer != Some(c.issuer) || users[i].subject != Some(c.subject)
  }

  /** Where the identity is not anchored the email decides. A row with a subject of its own turns the login away; a row
      with none is adopted by a full identity; one with an empty subject is returned as it is. */
  lemma {:induction false} LoginByEmail(users: Users, c: Claims, hook: Hook, id: Id)
    requires Unique(users) && Unanchored(users, c) && c.email != "" && c.emailVerified
    requires id in users && users[id].email == c.email
    ensures users[id].subject.Some? && users[id].subject.value != "" ==>
              Login(users, c, hook) == (users, Failure(SubjectMismatch))
    ensures users[id].subject == Some("") ==> Login(users, c, hook) == (users, Success(id))
    ensures users[id].subject == None && (c.issuer == "" || c.subject == "") ==> Login(users, c, hook) == (users, Success(id))
    ensures users[id].subject == None && c.issuer != "" && c.subject != "" ==>
              Login(users, c, hook) == (users[id := Row(c.email, Some(c.issuer), Some(c.subject))], Success(id))
  {
    assert ByEmail(users, c.email) == Some(id);
    assert HasIdentity(c) ==> BySubject(users, c.issuer, c.subject).None?;
  }

  /** Where nobody has the email either the callback decides; the row it creates carries the full identity, or none. */
  lemma {:induction false} LoginProvisions(users: Users, c: Claims, hook: Hook)
    requires Unanchored(users, c) && c.email != "" && c.emailVerified
    requires forall i :: i in users ==> users[i].email != c.email
    ensures Login(users, c, hook) ==
            match hook
            case NoHook => (users, Failure(TenantNotFound))
            case NotAllowed => (users, Failure(Refused))
            case Fails => (users, Failure(DbError))
            case Creates(id) =>
              var full := c.issuer != "" && c.subject != "";
              (users[id := Row(c.email, if full then Some(c.issuer) else None, if full then Some(c.subject) else None)], Success(id))
  {
    assert ByEmail(users, c.email).None?;
    assert HasIdentity(c) ==> BySubject(users, c.issuer, c.subject).None?;
  }

  // ----- runs

  /** Logins, and administrators inviting an email before its first login. */
  datatype Step = LogIn(c: Claims, hook: Hook) | Invite(id: Id, email: string)

  predicate Enabled(users: Users, st: Step) {
    match st
    case LogIn(_, hook) => hook.Creates? ==> hook.id !in users
    case Invite(id, email) => id !in users && forall i :: i in users ==> users[i].email != email
  }

  ghost function Next(users: Users, st: Step): Users {
    match st
    case LogIn(c, hook) => Login(users, c, hook).0
    case Invite(id, email) => users[id := Row(email, None, None)]
  }

  ghost predicate Run(states: seq<Users>, steps: seq<Step>) {
    && |states| == |steps| + 1
    && Unique(states[0])
    && forall i {:trigger steps[i]} :: 0 <= i < |steps| ==>
              Enabled(states[i], steps[i]) && states[i + 1] == Next(states[i], steps[i])
  }

  lemma {:induction false} NextKeeps(users: Users, st: Step)
    requires Unique(users) && Enabled(users, st)
    ensures var after := Next(users, st);
            Unique(after) && KeepsAnchors(users, after) && (NoBlankSubject(users) ==> NoBlankSubject(after))
  {
    if st.LogIn? {
      LoginKeeps(users, st.c, st.hook);
    }
  }

  /** Over every run emails stay unique and no anchored (issuer, subject) pair ever changes. */
  lemma {:induction false} RunKeeps(states: seq<Users>, steps: seq<Step>, m: nat, n: nat)
    requires Run(states, steps) && m <= n < |states|
    ensures Unique(states[n]) && KeepsAnchors(states[m], states[n])
    ensures NoBlankSubject(states[m]) ==> NoBlankSubject(states[n])
    decreases n
  {
    if n > 0 {
      RunKeeps(states, steps, if m < n then m else 0, n - 1);
      NextKeeps(states[n - 1], steps[n - 1]);
    }
  }

  ghost predicate Succeeds(states: seq<Users>, steps: seq<Step>, n: nat, c: Claims, id: Id) {
    && n < |steps| && n < |states| && steps[n].LogIn? && steps[n].c == c && HasIdentity(c)
    && Login(states[n], c, steps[n].hook).1 == Success(id)
  }

  /** From a table without blank subjects, a login that succeeds with a full identity has anchored its row to
      it from the next state on. */
  lemma {:induction false} SuccessAnchors(states: seq<Users>, steps: seq<Step>, m: nat, n: nat, c: Claims, id: Id)
    requires Run(states, steps) && NoBlankSubject(states[0])
    requires Succeeds(states, steps, m, c, id) && m < n < |states|
    ensures id in states[n] && Anchored(states[n][id], c.issuer, c.subject)
  {
    RunKeeps(states, steps, 0, m);
    RunKeeps(states, steps, 0, m + 1);
    var st := steps[m];
    assert states[m + 1] == Next(states[m], st);
    LoginAnchors(states[m], c, st.hook);
    RunKeeps(states, steps, m + 1, n);
  }

  /** A full identity that resolved once resolves to the same id in every later login, whatever verified
      email it then presents. */
  lemma {:induction false} SameIdentitySameId(states: seq<Users>, steps: seq<Step>, m: nat, n: nat, c: Claims, id: Id)
    requires Run(states, steps) && NoBlankSubject(states[0])
    requires Succeeds(states, steps, m, c, id) && m < n < |steps| && steps[n].LogIn?
    requires steps[n].c.issuer == c.issuer && steps[n].c.subject == c.subject && steps[n].c.email != "" && steps[n].c.emailVerified
    ensures Login(states[n], steps[n].c, steps[n].hook).1 == Success(id)
  {
    SuccessAnchors(states, steps, m, n, c, id);
    RunKeeps(states, steps, 0, n);
    assert Enabled(states[n], steps[n]);
    AnchorResolves(states[n], steps[n].c, steps[n].hook, id);
  }

  /** Two different full identities never resolve to the same id. */
  lemma {:induction false} DistinctIdentities(states: seq<Users>, steps: seq<Step>, m: nat, n: nat, c: Claims, d: Claims, id: Id)
    requires Run(states, steps) && NoBlankSubject(states[0])
    requires Succeeds(states, steps, m, c, id) && Succeeds(states, steps, n, d, id)
    ensures c.issuer == d.issuer && c.subject == d.subject
  {
    var last := |states| - 1;
    SuccessAnchors(states, steps, m, last, c, id);
    SuccessAnchors(states, steps, n, last, d, id);
  }

  /** Without that assumption it fails: a row whose subject is empty but not null resolves for every identity
      the table does not know, and is never anchored to any of them. */
  lemma {:induction false} BlankSubjectIsShared(users: Users, id: Id, c: Claims, hook: Hook)
    requires Unique(users) && id in users && BlankSubject(users[id]) && users[id].email == c.email
    requires HasIdentity(c) && c.email != "" && c.emailVerified && BySubject(users, c.issuer, c.subject).None?
    ensures Login(users, c, hook) == (users, Success(id))
  {
    var found := ByEmail(users, c.email);
    assert found == Some(id);
  }

  /** Two different full identities log in one after the other and both resolve to id. */
  ghost predicate SharedBy(users: Users, id: Id, c: Claims, ch: Hook, d: Claims, dh: Hook) {
    && HasIdentity(c) && HasIdentity(d) && (c.issuer != d.issuer || c.subject != d.subject)
    && (ch.Creates? ==> ch.id !in users)
    && (dh.Creates? ==> dh.id !in Login(users, c, ch).0)
    && Login(users, c, ch).1 == Success(id)
    && Login(Login(users, c, ch).0, d, dh).1 == Success(id)
  }

  lemma {:induction false} LongerThan(users: Users, keys: set<Id>) returns (s: string)
    requires keys <= users.Keys
    ensures s != "" && forall i :: i in keys && users[i].subject.Some? ==> |users[i].subject.value| < |s|
    decreases keys
  {
    if keys == {} {
      s := "s";
    } else {
      var i :| i in keys;
      s := LongerThan(users, keys - {i});
      if users[i].subject.Some? {
        s := s + users[i].subject.value;
      }
    }
  }

  lemma {:induction false} SharedIsBlank(users: Users, id: Id, c: Claims, ch: Hook, d: Claims, dh: Hook)
    requires Unique(users) && id in users && SharedBy(users, id, c, ch, d, dh)
    ensures BlankSubject(users[id]) && users[id].email != ""
  {
    var mid := Login(users, c, ch).0;
    LoginKeeps(users, c, ch);
    LoginAnchors(users, c, ch);
    FailsClosed(mid, d, dh);
    assert BlankSubject(mid[id]);
    assert BlankSubject(users[id]) ==> users[id].email == c.email;
  }

  lemma {:induction false} BlankIsShared(users: Users, id: Id) returns (c: Claims, d: Claims)
    requires Unique(users) && id in users && BlankSubject(users[id]) && users[id].email != ""
    ensures SharedBy(users, id, c, NoHook, d, NoHook)
  {
    var s := LongerThan(users, users.Keys);
    c, d := Claims("i", s, users[id].email, true), Claims("i", s + "s", users[id].email, true);
    assert |c.subject| < |d.subject|;
    BlankSubjectIsShared(users, id, c, NoHook);
    BlankSubjectIsShared(users, id, d, NoHook);
  }

  /** Exactly the rows with a blank subject, and an email that can log in at all, can be shared by two
      identities. */
  lemma {:induction false} SharedIff(users: Users, id: Id)
    requires Unique(users) && id in users
    ensures (exists c, ch, d, dh :: SharedBy(users, id, c, ch, d, dh)) <==> BlankSubject(users[id]) && users[id].email != ""
  {
    if c, ch, d, dh :| SharedBy(users, id, c, ch, d, dh) {
      SharedIsBlank(users, id, c, ch, d, dh);
    }
    if BlankSubject(users[id]) && users[id].email != "" {
      var c, d := BlankIsShared(users, id);
    }
  }
}
