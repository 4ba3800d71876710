/** Signing in with a Discord profile: the user table, its unique email index and
    the events that go with it. */
module Accounts {
  import opened Prelude
  import opened Schema

  datatype DbError = NotFound | UniqueViolation | Broken

  /** Which statement of one call the database refuses: the lookup of a row, another query
      before the call writes, or the `n`-th write. */
  datatype Fault = NoFault | LookupFault | QueryFault | WriteFault(n: nat)

  /** What the sign-in handler knows about somebody. */
  predicate IsProfile(p: User) {
    p.id == 0 && p.role == "" && p.twitter == "" && p.soundcloud == ""
  }

  /** The row that is stored for a new profile. */
  function StoredUser(p: User, slugify: string -> string): User {
    User(0, p.email, slugify(p.slug), p.locale,
         "https://cdn.discordapp.com/avatars/" + p.discordId + "/" + p.avatar + ".png",
         p.discordId, p.slug + "#" + p.discordUsername, "", "", "")
  }

  predicate EmailTaken(us: seq<User>, email: string) {
    exists i :: 0 <= i < |us| && us[i].email == email
  }

  function Event(kind: Kind, author: int): Post {
    BLANK.(kind := kind, authorId := author)
  }

  /** A new user and the two events that record the registration. */
  function Registered(db: Database, u: User): Database {
    var id := db.nextId;
    var d1 := db.(users := db.users + [u.(id := id)], nextId := id + 1);
    InsertPost(InsertPost(d1, Event(Register, id)), Event(LinkDiscord, id))
  }

  function SignIn(db: Database, p: User, slugify: string -> string, fault: Fault): (Database, Result<User, DbError>) {
    if fault == LookupFault then (db, Err(Broken))
    else
      match FirstUser(db.users, p)
      case Some(u) =>
        if fault == WriteFault(0) then (db, Err(Broken)) else (InsertPost(db, Event(Login, u.id)), Ok(u))
      case None =>
        var u := StoredUser(p, slugify);
        if fault == WriteFault(0) then (db, Err(Broken))
        else if EmailTaken(db.users, u.email) then (db, Err(UniqueViolation))
        else if fault.WriteFault? && fault.n <= 3 then (db, Err(Broken))
        else (Registered(db, u), Ok(u.(id := db.nextId)))
  }

  // ---- what a sign-in stores --------------------------------------------------

  /** The row agrees with everything that is known about somebody. */
  predicate Agrees(p: User, u: User) {
    && (p.email == "" || u.email == p.email)
    && (p.slug == "" || u.slug == p.slug)
    && (p.locale == "" || u.locale == p.locale)
    && (p.avatar == "" || u.avatar == p.avatar)
    && (p.discordId == "" || u.discordId == p.discordId)
    && (p.discordUsername == "" || u.discordUsername == p.discordUsername)
  }

  /** Row `i` is the first that agrees. */
  predicate FirstAgreeing(us: seq<User>, p: User, i: nat) {
    i < |us| && Agrees(p, us[i]) && forall j :: 0 <= j < i ==> !Agrees(p, us[j])
  }

  /** The row of a new user: nobody starts with a role. */
  predicate NewRow(p: User, slugify: string -> string, u: User) {
    && u.email == p.email && u.locale == p.locale && u.discordId == p.discordId
    && u.slug == slugify(p.slug)
    && u.avatar == "https://cdn.discordapp.com/avatars/" + p.discordId + "/" + p.avatar + ".png"
    && u.discordUsername == p.slug + "#" + p.discordUsername
    && u.role == "" && u.twitter == "" && u.soundcloud == ""
  }

  /** An event has its kind, its author and perhaps a target, and nothing else. */
  predicate IsEvent(e: Post, id: int, kind: Kind, author: int, targetUser: int, targetPost: int) {
    e == Post(id, kind, UnknownVisibility, author, "", "", "", "", 0, Some(0), Some(""),
              UnknownProvider, "", "", "", "", 0, "", "", 0, "", "", targetUser, targetPost)
  }

  /** A sign-in that succeeded: the first row that agrees with the profile got one Login
      event; or there was none, the email was new, and a new row got its two events. */
  predicate SignedIn(before: Database, p: User, slugify: string -> string, u: User, after: Database) {
    && after.links == before.links && before.posts <= after.posts
    && var events := after.posts[|before.posts|..];
       if exists i :: 0 <= i < |before.users| && Agrees(p, before.users[i]) then
         && (exists i :: 0 <= i < |before.users| && FirstAgreeing(before.users, p, i) && before.users[i] == u)
         && after.users == before.users && after.nextId == before.nextId + 1
         && |events| == 1 && IsEvent(events[0], before.nextId, Login, u.id, 0, 0)
       else
         && !EmailTaken(before.users, p.email)
         && u.id == before.nextId && NewRow(p, slugify, u)
         && after.users == before.users + [u] && after.nextId == before.nextId + 3
         && |events| == 2 && IsEvent(events[0], u.id + 1, Register, u.id, 0, 0)
         && IsEvent(events[1], u.id + 2, LinkDiscord, u.id, 0, 0)
  }

  lemma {:induction false} MatchesAgree(p: User)
    requires IsProfile(p)
    ensures forall u :: UserMatches(p, u) <==> Agrees(p, u)
  {
  }

  lemma {:induction false} LookedUp(us: seq<User>, p: User)
    requires IsProfile(p)
    ensures FirstUser(us, p).None? <==> forall i :: 0 <= i < |us| ==> !Agrees(p, us[i])
    ensures FirstUser(us, p).Some? ==>
      exists i :: 0 <= i < |us| && FirstAgreeing(us, p, i) && us[i] == FirstUser(us, p).value
  {
    hide UserMatches, Agrees, FirstUser;
    MatchesAgree(p);
    if FirstUser(us, p).Some? {
      var i :| 0 <= i < |us| && us[i] == FirstUser(us, p).value
               && UserMatches(p, us[i]) && forall j :: 0 <= j < i ==> !UserMatches(p, us[j]);
      assert FirstAgreeing(us, p, i);
    } else {
      forall i | 0 <= i < |us| ensures !Agrees(p, us[i]) {
        assert !UserMatches(p, us[i]);
      }
    }
  }

  /** What a sign-in stores, and exactly when it succeeds: for a known profile unless the
      lookup or the event is refused; for a new one when the email is new and none of the
      lookup, the three inserts and the commit is refused. */
  lemma {:induction false} SignInExactly(db: Database, p: User, slugify: string -> string, fault: Fault)
    requires IsProfile(p)
    ensures var (after, r) := SignIn(db, p, slugify, fault);
      && (r.Ok? ==> SignedIn(db, p, slugify, r.value, after))
      && (r.Err? ==> after == db)
      && (r.Ok? <==>
           fault != LookupFault &&
           if exists i :: 0 <= i < |db.users| && Agrees(p, db.users[i]) then fault != WriteFault(0)
           else !EmailTaken(db.users, p.email) && fault !in {WriteFault(0), WriteFault(1), WriteFault(2), WriteFault(3)})
  {
    hide Agrees, FirstUser, EmailTaken, SignedIn, Registered, InsertPost;
    LookedUp(db.users, p);
    var (after, r) := SignIn(db, p, slugify, fault);
    if r.Ok? {
      if FirstUser(db.users, p).Some? {
        LoginStored(db, p, slugify);
      } else {
        RegistrationStored(db, p, slugify);
      }
    }
  }

  lemma {:induction false} LoginStored(db: Database, p: User, slugify: string -> string)
    requires IsProfile(p) && FirstUser(db.users, p).Some?
    ensures var u := FirstUser(db.users, p).value; SignedIn(db, p, slugify, u, InsertPost(db, Event(Login, u.id)))
  {
    hide Agrees, FirstUser, EmailTaken, NewRow;
    LookedUp(db.users, p);
    var u := FirstUser(db.users, p).value;
    assert InsertPost(db, Event(Login, u.id)).posts[|db.posts|..] == [Event(Login, u.id).(id := db.nextId)];
  }

  lemma {:induction false} RegistrationStored(db: Database, p: User, slugify: string -> string)
    requires IsProfile(p) && FirstUser(db.users, p).None? && !EmailTaken(db.users, p.email)
    ensures var u := StoredUser(p, slugify); SignedIn(db, p, slugify, u.(id := db.nextId), Registered(db, u))
  {
    hide Agrees, FirstUser, EmailTaken;
    LookedUp(db.users, p);
    var after := Registered(db, StoredUser(p, slugify));
    var e1 := Event(Register, db.nextId).(id := db.nextId + 1);
    var e2 := Event(LinkDiscord, db.nextId).(id := db.nextId + 2);
    assert after.posts == db.posts + [e1] + [e2];
    assert after.posts[|db.posts|..] == [e1, e2];
  }

  // ---- signing in a second time ---------------------------------------------

  predicate EmailsUnique(us: seq<User>) {
    forall i, j :: 0 <= i < j < |us| ==> us[i].email != us[j].email
  }

  /** The profile's own row answers the lookup exactly when nothing in it was
      rewritten on the way into the table. */
  predicate KeptAsGiven(p: User, slugify: string -> string) {
    p.avatar == "" && p.discordUsername == "" && (p.slug == "" || slugify(p.slug) == p.slug)
  }

  lemma {:induction false} OwnRowMatches(p: User, slugify: string -> string, id: int)
    requires IsProfile(p)
    ensures UserMatches(p, StoredUser(p, slugify).(id := id)) <==> KeptAsGiven(p, slugify)
  {
    var u := StoredUser(p, slugify);
    assert |u.avatar| > |p.avatar|;
    assert |u.discordUsername| > |p.discordUsername|;
  }

  /** Somebody with an email who has just registered can sign in again exactly when
      the stored row kept the profile as given; otherwise the second attempt is an
      attempt to register and fails on the email. */
  lemma {:induction false} SecondSignIn(db: Database, p: User, slugify: string -> string)
    requires IsProfile(p) && p.email != "" && EmailsUnique(db.users)
    requires FirstUser(db.users, p).None? && SignIn(db, p, slugify, NoFault).1.Ok?
    ensures var once := SignIn(db, p, slugify, NoFault).0;
      var again := SignIn(once, p, slugify, NoFault);
      && (again.1.Ok? <==> KeptAsGiven(p, slugify))
      && (!KeptAsGiven(p, slugify) ==> again == (once, Err(UniqueViolation)))
  {
    var once := SignIn(db, p, slugify, NoFault).0;
    var own := StoredUser(p, slugify).(id := db.nextId);
    OwnRowMatches(p, slugify, db.nextId);
    var us := once.users;
    assert us == db.users + [own] && us[|us| - 1] == own;
    if KeptAsGiven(p, slugify) {
      assert UserMatches(p, us[|us| - 1]);
    } else {
      forall i | 0 <= i < |us| ensures !UserMatches(p, us[i]) {
        if i < |us| - 1 {
          assert us[i] == db.users[i];
        }
      }
      assert EmailTaken(us, own.email);
    }
  }

  /** A profile as the sign-in handler builds it: the name on Discord is both slug and
      Discord name. */
  predicate FromDiscord(p: User) {
    IsProfile(p) && p.slug == p.discordUsername && p.discordUsername != ""
  }

  /** No profile that comes from Discord is kept as given, so whoever has just registered
      can never sign in again. */
  lemma {:induction false} DiscordSignsInOnce(db: Database, p: User, slugify: string -> string)
    requires FromDiscord(p) && p.email != "" && EmailsUnique(db.users)
    requires FirstUser(db.users, p).None? && SignIn(db, p, slugify, NoFault).1.Ok?
    ensures !KeptAsGiven(p, slugify)
    ensures var once := SignIn(db, p, slugify, NoFault).0;
      SignIn(once, p, slugify, NoFault) == (once, Err(UniqueViolation))
  {
    hide SignIn, FirstUser;
    SecondSignIn(db, p, slugify);
  }

  /** A call that reports an error has changed nothing. */
  lemma {:induction false} ErrorChangesNothing(db: Database, p: User, slugify: string -> string, fault: Fault)
    requires SignIn(db, p, slugify, fault).1.Err?
    ensures SignIn(db, p, slugify, fault).0 == db
  {
  }
}
