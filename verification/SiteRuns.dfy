/** What holds of the tables over every sequential run of the site. */
module SiteRuns {
  import opened Prelude
  import opened Schema
  import opened Accounts
  import opened Featuring
  import opened Migrations
  import opened Pages
  import Decimal
  import Naming
  import Text

  datatype Action =
    | SigningIn(profile: User, fault: Fault)
    | Uploading(user: int, up: Upload, fault: Fault)
    | Linking(user: int, l: Link, fault: Fault)
    | Visiting(user: int, segment: string, comment: Option<string>, fault: Fault)
    | Editing(user: int, segment: string, e: Edit, fault: Fault)
    | Detecting(user: int, segment: string, fault: Fault, failing: Option<nat>)
    | SeeingProfile(user: int, slug: string, fault: Fault)
    | SeeingHome(user: int, fault: Fault)
    | SeeingOpen(user: int, fault: Fault)
    | Working(commits: bool, tx: Tx)

  function Apply(db: Database, slugify: string -> string, a: Action): Database {
    match a
    case SigningIn(p, fault) => SignIn(db, p, slugify, fault).0
    case Uploading(user, up, fault) => UploadStep(db, user, up, fault)
    case Linking(user, l, fault) => LinkStep(db, user, l, fault)
    case Visiting(user, segment, comment, fault) => VisitStep(db, user, segment, comment, fault)
    case Editing(user, segment, e, fault) => EditStep(db, user, segment, e, fault)
    case Detecting(user, segment, fault, failing) => DetectStep(db, user, segment, fault, failing)
    case SeeingProfile(user, slug, fault) => ProfileStep(db, user, slug, fault)
    case SeeingHome(user, fault) => Inserted(db, Event(ViewHome, Viewer(db, user)), fault)
    case SeeingOpen(user, fault) => Inserted(db, Event(ViewOpen, Viewer(db, user)), fault)
    case Working(commits, tx) => if commits then db.(posts := ProcessedAll(db.posts, Under(SHIPPED, tx))) else db
  }

  /** The duplicate check got an answer, whatever else failed. */
  predicate Answered(a: Action) {
    (a.Uploading? || a.Linking?) ==> a.fault != LookupFault
  }

  // ---- the invariant -----------------------------------------------------------------

  predicate Clash(p: Post, q: Post) {
    (p.cid != "" && p.cid == q.cid) || (p.scid != 0 && p.scid == q.scid)
  }

  predicate NoDuplicates(ps: seq<Post>) {
    forall i, j :: 0 <= i < j < |ps| ==> !Clash(ps[i], ps[j])
  }

  predicate HasTrack(ps: seq<Post>, id: int) {
    exists i :: 0 <= i < |ps| && ps[i].id == id && ps[i].kind == Track
  }

  predicate HasUser(us: seq<User>, id: int) {
    exists i :: 0 <= i < |us| && us[i].id == id
  }

  /** Comments say something, targets exist, authors exist, versions are in range. */
  predicate GoodPost(us: seq<User>, ps: seq<Post>, p: Post) {
    && (p.kind == Comment ==> p.body != "" && Text.Trimmed(p.body))
    && (p.targetPostId != 0 ==> HasTrack(ps, p.targetPostId))
    && (p.kind in {Track, Login, Register, LinkDiscord, Comment} ==> HasUser(us, p.authorId))
    && VersionInRange(p, 2)
  }

  predicate GoodPosts(us: seq<User>, ps: seq<Post>) {
    forall i :: 0 <= i < |ps| ==> GoodPost(us, ps, ps[i])
  }

  function CountEvents(ps: seq<Post>, kind: Kind, author: int): nat {
    if ps == [] then 0
    else
      var last := ps[|ps| - 1];
      CountEvents(ps[..|ps| - 1], kind, author) + (if last.kind == kind && last.authorId == author then 1 else 0)
  }

  predicate RegisteredOnce(ps: seq<Post>, id: int) {
    CountEvents(ps, Register, id) == 1 && CountEvents(ps, LinkDiscord, id) == 1
  }

  predicate GoodUsers(us: seq<User>, ps: seq<Post>, bound: int) {
    && EmailsUnique(us)
    && (forall i :: 0 <= i < |us| ==> 0 < us[i].id < bound)
    && (forall i, j :: 0 <= i < j < |us| ==> us[i].id < us[j].id)
    && (forall i :: 0 <= i < |us| ==> RegisteredOnce(ps, us[i].id))
  }

  /** A link that still points somewhere points to an existing track or user. */
  predicate GoodLink(us: seq<User>, ps: seq<Post>, r: Relationship) {
    && (r.sourcePost.Some? ==> HasTrack(ps, r.sourcePost.value))
    && (r.targetPost.Some? ==> HasTrack(ps, r.targetPost.value))
    && (r.targetUser.Some? ==> HasUser(us, r.targetUser.value))
  }

  predicate GoodLinks(us: seq<User>, ps: seq<Post>, rs: seq<Relationship>) {
    forall i :: 0 <= i < |rs| ==> GoodLink(us, ps, rs[i])
  }

  predicate Inv(db: Database) {
    && db.nextId > 0
    && AscendingPosts(db.posts, db.nextId)
    && NoDuplicates(db.posts)
    && GoodPosts(db.users, db.posts)
    && GoodUsers(db.users, db.posts, db.nextId)
    && GoodLinks(db.users, db.posts, db.links)
  }

  const EMPTY := Database(1, [], [], [])

  // ---- one row more ------------------------------------------------------------------

  lemma {:induction false} CountSnoc(ps: seq<Post>, p: Post, kind: Kind, author: int)
    ensures CountEvents(ps + [p], kind, author) ==
      CountEvents(ps, kind, author) + (if p.kind == kind && p.authorId == author then 1 else 0)
  {
    assert (ps + [p])[..|ps|] == ps;
  }

  lemma {:induction false} StillHasTrack(ps: seq<Post>, p: Post, id: int)
    requires HasTrack(ps, id)
    ensures HasTrack(ps + [p], id)
  {
    var i :| 0 <= i < |ps| && ps[i].id == id && ps[i].kind == Track;
    assert (ps + [p])[i] == ps[i];
  }

  lemma {:induction false} LinksKept(
    us: seq<User>, ps: seq<Post>, us': seq<User>, ps': seq<Post>, rs: seq<Relationship>)
    requires GoodLinks(us, ps, rs)
    requires forall id :: HasTrack(ps, id) ==> HasTrack(ps', id)
    requires forall id :: HasUser(us, id) ==> HasUser(us', id)
    ensures GoodLinks(us', ps', rs)
  {
    hide HasTrack, HasUser;
    forall i | 0 <= i < |rs| ensures GoodLink(us', ps', rs[i]) {
      assert GoodLink(us, ps, rs[i]);
    }
  }

  /** Appending a row that clashes with none and is good keeps everything, as long as
      it is not a registration event. */
  lemma {:induction false} InsertKeeps(db: Database, p: Post)
    requires Inv(db) && p.kind !in {Register, LinkDiscord}
    requires GoodPost(db.users, db.posts, p)
    requires forall i :: 0 <= i < |db.posts| ==> !Clash(db.posts[i], p)
    ensures Inv(InsertPost(db, p))
  {
    var q := p.(id := db.nextId);
    var ps := db.posts + [q];
    forall i | 0 <= i < |ps| ensures GoodPost(db.users, ps, ps[i]) {
      var r := if i < |db.posts| then db.posts[i] else p;
      assert GoodPost(db.users, db.posts, r);
      if r.targetPostId != 0 { StillHasTrack(db.posts, q, r.targetPostId); }
    }
    forall i | 0 <= i < |db.users| ensures RegisteredOnce(ps, db.users[i].id) {
      CountSnoc(db.posts, q, Register, db.users[i].id);
      CountSnoc(db.posts, q, LinkDiscord, db.users[i].id);
    }
    forall id | HasTrack(db.posts, id) ensures HasTrack(ps, id) { StillHasTrack(db.posts, q, id); }
    LinksKept(db.users, db.posts, db.users, ps, db.links);
  }

  /** An event of a viewer: no body, no identifiers, at most a target. */
  lemma {:induction false} EventKeeps(db: Database, p: Post, fault: Fault)
    requires Inv(db) && p.cid == "" && p.scid == 0 && p.kind !in {Register, LinkDiscord}
    requires GoodPost(db.users, db.posts, p)
    ensures Inv(Inserted(db, p, fault))
  {
    if !fault.WriteFault? { InsertKeeps(db, p); }
  }

  lemma {:induction false} FoundHasUser(us: seq<User>, id: int)
    requires UserById(us, id).Some?
    ensures HasUser(us, id)
  {
    var u := UserById(us, id).value;
    var i :| 0 <= i < |us| && us[i] == u;
  }

  lemma {:induction false} FoundHasTrack(ps: seq<Post>, segment: string)
    requires PostBySlugOrId(ps, segment).Some?
    ensures HasTrack(ps, PostBySlugOrId(ps, segment).value.id)
  {
    FoundIsTrack(ps, segment);
    var p := PostBySlugOrId(ps, segment).value;
    var i :| 0 <= i < |ps| && ps[i] == p;
  }

  lemma {:induction false} FoundHasId(db: Database, c: Post)
    requires Inv(db)
    ensures FirstPost(db.posts, c).Some? ==> FirstPost(db.posts, c).value.id > 0
  {
    if FirstPost(db.posts, c).Some? {
      var i :| 0 <= i < |db.posts| && db.posts[i] == FirstPost(db.posts, c).value;
      assert db.posts[i].id > 0;
    }
  }

  lemma {:induction false} UploadKeeps(db: Database, user: int, up: Upload, fault: Fault)
    requires Inv(db) && fault != LookupFault
    ensures Inv(UploadStep(db, user, up, fault))
  {
    if UploadStep(db, user, up, fault) != db {
      FoundHasUser(db.users, user);
      var c := BLANK.(cid := up.cid.value);
      FoundHasId(db, c);
      InsertKeeps(db, UploadedPost(user, up));
    }
  }

  lemma {:induction false} LinkKeeps(db: Database, user: int, l: Link, fault: Fault)
    requires Inv(db) && fault != LookupFault
    ensures Inv(LinkStep(db, user, l, fault))
  {
    if LinkStep(db, user, l, fault) != db {
      FoundHasUser(db.users, user);
      var c := BLANK.(scid := LinkId(l).value);
      FoundHasId(db, c);
      InsertKeeps(db, LinkedPost(user, LinkId(l).value, l));
    }
  }

  lemma {:induction false} VisitKeeps(db: Database, user: int, segment: string, comment: Option<string>, fault: Fault)
    requires Inv(db)
    ensures Inv(VisitStep(db, user, segment, comment, fault))
  {
    hide NoDuplicates, AscendingPosts, GoodUsers, GoodLinks, PostBySlugOrId, UserById, Text.TrimSpace, Inserted;
    if TrackOf(db, segment, fault).Some? {
      FoundHasTrack(db.posts, segment);
      var p := PostBySlugOrId(db.posts, segment).value;
      var viewer := Viewer(db, user);
      if Comments(db, user, comment) {
        FoundHasUser(db.users, user);
        var a, b := Text.TrimSpaceSpec(comment.value);
        EventKeeps(db, CommentPost(viewer, Text.TrimSpace(comment.value), p.id), fault);
      } else {
        EventKeeps(db, Event(ViewPost, viewer).(targetPostId := p.id), fault);
      }
    }
  }

  // ---- rows rewritten in place ---------------------------------------------------------

  /** A rewrite that leaves identities, and the bodies of everything but tracks, alone. */
  predicate Rewrites(p: Post, q: Post) {
    && SameRow(p.(version := q.version, error := q.error), q) && VersionInRange(q, 2)
    && (p.kind != Track ==> q.body == p.body)
  }

  lemma {:induction false} CountRewritten(ps: seq<Post>, qs: seq<Post>, kind: Kind, author: int)
    requires |qs| == |ps| && forall i :: 0 <= i < |ps| ==> qs[i].kind == ps[i].kind && qs[i].authorId == ps[i].authorId
    ensures CountEvents(qs, kind, author) == CountEvents(ps, kind, author)
    decreases |ps|
  {
    if ps != [] { CountRewritten(ps[..|ps| - 1], qs[..|qs| - 1], kind, author); }
  }

  lemma {:induction false} RewriteKeepsTrack(ps: seq<Post>, qs: seq<Post>, id: int)
    requires |qs| == |ps| && forall i :: 0 <= i < |ps| ==> Rewrites(ps[i], qs[i])
    requires HasTrack(ps, id)
    ensures HasTrack(qs, id)
  {
    var i :| 0 <= i < |ps| && ps[i].id == id && ps[i].kind == Track;
    assert Rewrites(ps[i], qs[i]);
  }

  lemma {:induction false} RewriteKeeps(db: Database, qs: seq<Post>)
    requires Inv(db) && |qs| == |db.posts|
    requires forall i :: 0 <= i < |qs| ==> Rewrites(db.posts[i], qs[i])
    ensures Inv(db.(posts := qs))
  {
    var ps := db.posts;
    forall i, j | 0 <= i < j < |qs| ensures !Clash(qs[i], qs[j]) && qs[i].id < qs[j].id {
      assert Rewrites(ps[i], qs[i]) && Rewrites(ps[j], qs[j]) && !Clash(ps[i], ps[j]);
    }
    forall i | 0 <= i < |qs| ensures GoodPost(db.users, qs, qs[i]) && 0 < qs[i].id < db.nextId {
      assert Rewrites(ps[i], qs[i]) && GoodPost(db.users, ps, ps[i]);
      if qs[i].targetPostId != 0 { RewriteKeepsTrack(ps, qs, qs[i].targetPostId); }
    }
    forall i | 0 <= i < |db.users| ensures RegisteredOnce(qs, db.users[i].id) {
      CountRewritten(ps, qs, Register, db.users[i].id);
      CountRewritten(ps, qs, LinkDiscord, db.users[i].id);
    }
    forall id | HasTrack(ps, id) ensures HasTrack(qs, id) { RewriteKeepsTrack(ps, qs, id); }
    LinksKept(db.users, ps, db.users, qs, db.links);
  }

  lemma {:induction false} EditKeeps(db: Database, user: int, segment: string, e: Edit, fault: Fault)
    requires Inv(db)
    ensures Inv(EditStep(db, user, segment, e, fault))
  {
    if EditStep(db, user, segment, e, fault) != db {
      FoundIsTrack(db.posts, segment);
      var p := AccessTo(db, user, segment, fault).track;
      var k :| 0 <= k < |db.posts| && db.posts[k] == p;
      var qs := ReplacePost(db.posts, EditedPost(p, e));
      forall i | 0 <= i < |qs| ensures Rewrites(db.posts[i], qs[i]) {
        assert GoodPost(db.users, db.posts, db.posts[i]);
        assert i != k ==> db.posts[i].id != p.id;
      }
      RewriteKeeps(db, qs);
    }
  }

  /** A pass keeps everything, whichever UPDATE of a migration is refused. */
  lemma {:induction false} WorkKeeps(db: Database, tx: Tx)
    requires Inv(db)
    ensures Inv(db.(posts := ProcessedAll(db.posts, Under(SHIPPED, tx))))
  {
    var ms := Under(SHIPPED, tx);
    ShippedWellBehaved(tx);
    var qs := ProcessedAll(db.posts, ms);
    forall i | 0 <= i < |qs| ensures Rewrites(db.posts[i], qs[i]) {
      assert GoodPost(db.users, db.posts, db.posts[i]);
      if Outdated(db.posts[i], |ms|) {
        ProcessedSettles(db.posts[i], ms);
      }
    }
    RewriteKeeps(db, qs);
  }

  // ---- signing in ------------------------------------------------------------------------

  lemma {:induction false} NoEventsYet(us: seq<User>, ps: seq<Post>, kind: Kind, id: int)
    requires GoodPosts(us, ps) && !HasUser(us, id) && kind in {Register, LinkDiscord}
    ensures CountEvents(ps, kind, id) == 0
  {
    NoEventsOf(us, ps, |ps|, kind, id);
    assert ps[..|ps|] == ps;
  }

  lemma {:induction false} NoEventsOf(us: seq<User>, ps: seq<Post>, n: nat, kind: Kind, id: int)
    requires n <= |ps| && GoodPosts(us, ps) && !HasUser(us, id) && kind in {Register, LinkDiscord}
    ensures CountEvents(ps[..n], kind, id) == 0
    decreases n
  {
    if n > 0 {
      NoEventsOf(us, ps, n - 1, kind, id);
      assert ps[..n][..n - 1] == ps[..n - 1];
      assert GoodPost(us, ps, ps[n - 1]);
    }
  }

  /** The counts of the two events for any user after a registration. */
  lemma {:induction false} EventsAfterRegistration(db: Database, u: User, id: int)
    ensures var ps := Registered(db, u).posts;
      && CountEvents(ps, Register, id) == CountEvents(db.posts, Register, id) + (if id == db.nextId then 1 else 0)
      && CountEvents(ps, LinkDiscord, id) == CountEvents(db.posts, LinkDiscord, id) + (if id == db.nextId then 1 else 0)
  {
    var e1 := Event(Register, db.nextId).(id := db.nextId + 1);
    var e2 := Event(LinkDiscord, db.nextId).(id := db.nextId + 2);
    var p1 := db.posts + [e1];
    assert Registered(db, u).posts == p1 + [e2];
    CountSnoc(db.posts, e1, Register, id);
    CountSnoc(p1, e2, Register, id);
    CountSnoc(db.posts, e1, LinkDiscord, id);
    CountSnoc(p1, e2, LinkDiscord, id);
  }

  lemma {:induction false} StillHasUser(us: seq<User>, u: User, id: int)
    ensures HasUser(us + [u], id) <==> HasUser(us, id) || u.id == id
  {
    if HasUser(us, id) {
      var i :| 0 <= i < |us| && us[i].id == id;
      assert (us + [u])[i].id == id;
    }
    assert (us + [u])[|us|] == u;
  }

  lemma {:induction false} RegistrationPosts(db: Database, u: User)
    requires Inv(db)
    ensures var d := Registered(db, u);
      AscendingPosts(d.posts, d.nextId) && NoDuplicates(d.posts) && GoodPosts(d.users, d.posts)
  {
    hide GoodUsers;
    var own := u.(id := db.nextId);
    var us := db.users + [own];
    var d := Registered(db, u);
    var e1 := Event(Register, db.nextId).(id := db.nextId + 1);
    var e2 := Event(LinkDiscord, db.nextId).(id := db.nextId + 2);
    var ps := d.posts;
    assert ps == db.posts + [e1] + [e2];
    StillHasUser(db.users, own, db.nextId);
    forall i | 0 <= i < |ps| ensures GoodPost(us, ps, ps[i]) {
      if i < |db.posts| {
        var p := db.posts[i];
        assert GoodPost(db.users, db.posts, p);
        StillHasUser(db.users, own, p.authorId);
        if p.targetPostId != 0 {
          StillHasTrack(db.posts, e1, p.targetPostId);
          StillHasTrack(db.posts + [e1], e2, p.targetPostId);
        }
      }
    }
  }

  lemma {:induction false} RegistrationLinks(db: Database, u: User)
    requires Inv(db)
    ensures var d := Registered(db, u); GoodLinks(d.users, d.posts, d.links)
  {
    var d := Registered(db, u);
    var e1 := Event(Register, db.nextId).(id := db.nextId + 1);
    var e2 := Event(LinkDiscord, db.nextId).(id := db.nextId + 2);
    assert d.posts == db.posts + [e1] + [e2];
    forall id | HasTrack(db.posts, id) ensures HasTrack(d.posts, id) {
      StillHasTrack(db.posts, e1, id);
      StillHasTrack(db.posts + [e1], e2, id);
    }
    forall id | HasUser(db.users, id) ensures HasUser(d.users, id) {
      StillHasUser(db.users, u.(id := db.nextId), id);
    }
    LinksKept(db.users, db.posts, d.users, d.posts, db.links);
  }

  lemma {:induction false} RegistrationUsers(db: Database, u: User)
    requires Inv(db) && !EmailTaken(db.users, u.email)
    ensures var d := Registered(db, u); GoodUsers(d.users, d.posts, d.nextId)
  {
    hide GoodLinks, NoDuplicates, AscendingPosts, HasTrack, CountEvents;
    var d := Registered(db, u);
    assert d.users == db.users + [u.(id := db.nextId)];
    assert !HasUser(db.users, db.nextId);
    NoEventsYet(db.users, db.posts, Register, db.nextId);
    NoEventsYet(db.users, db.posts, LinkDiscord, db.nextId);
    forall i | 0 <= i < |d.users| ensures RegisteredOnce(d.posts, d.users[i].id) {
      EventsAfterRegistration(db, u, d.users[i].id);
      if i < |db.users| {
        assert RegisteredOnce(db.posts, db.users[i].id) && db.users[i].id < db.nextId;
      }
    }
  }

  lemma {:induction false} SignInKeeps(db: Database, p: User, slugify: string -> string, fault: Fault)
    requires Inv(db)
    ensures Inv(SignIn(db, p, slugify, fault).0)
  {
    var after := SignIn(db, p, slugify, fault).0;
    if after != db {
      match FirstUser(db.users, p) {
        case Some(u) =>
          var i :| 0 <= i < |db.users| && db.users[i] == u;
          EventKeeps(db, Event(Login, u.id), NoFault);
        case None =>
          RegistrationPosts(db, StoredUser(p, slugify));
          RegistrationUsers(db, StoredUser(p, slugify));
          RegistrationLinks(db, StoredUser(p, slugify));
      }
    }
  }

  // ---- every run ---------------------------------------------------------------------------

  lemma {:induction false} RebuiltLinksGood(db: Database, post: int, users: seq<int>)
    requires Inv(db) && HasTrack(db.posts, post) && forall n :: 0 <= n < |users| ==> HasUser(db.users, users[n])
    ensures Inv(Rebuilt(db, post, users))
  {
    hide NoDuplicates, GoodPosts, GoodUsers, HasTrack, HasUser;
    var rs := Rebuilt(db, post, users).links;
    var n := |db.links|;
    forall i | 0 <= i < |rs| ensures GoodLink(db.users, db.posts, rs[i]) {
      assert i < n ==> rs[i] == Unlink(db.links[i], post) && GoodLink(db.users, db.posts, db.links[i]);
      assert i >= n ==> rs[i] == FeaturingRow(db.nextId + (i - n), post, users[i - n]);
    }
    MoreIds(db, Rebuilt(db, post, users));
  }

  lemma {:induction false} MoreIds(db: Database, d: Database)
    requires Inv(db) && d.posts == db.posts && d.users == db.users && d.nextId >= db.nextId
    requires GoodLinks(d.users, d.posts, d.links)
    ensures Inv(d)
  {
  }

  lemma {:induction false} CreditedAreUsers(us: seq<User>, ts: seq<string>)
    requires Resolvable(us, ts)
    ensures forall n :: 0 <= n < |ts| ==> HasUser(us, Credited(us, ts)[n])
  {
    forall n | 0 <= n < |ts| ensures HasUser(us, Credited(us, ts)[n]) {
      var u := UserBySlug(us, ts[n]).value;
      var i :| 0 <= i < |us| && us[i] == u;
    }
  }

  lemma {:induction false} DetectKeeps(
    db: Database, user: int, segment: string, fault: Fault, failing: Option<nat>)
    requires Inv(db)
    ensures Inv(DetectStep(db, user, segment, fault, failing))
  {
    hide Targets, Inv, Rebuilt, PostBySlugOrId, HasTrack, MayChange;
    if DetectStep(db, user, segment, fault, failing) != db {
      FoundHasTrack(db.posts, segment);
      var p := AccessTo(db, user, segment, fault).track;
      CreditedAreUsers(db.users, Targets(p));
      RebuiltLinksGood(db, p.id, Credited(db.users, Targets(p)));
    }
  }

  lemma {:induction false} StepKeeps(db: Database, slugify: string -> string, a: Action)
    requires Inv(db) && Answered(a)
    ensures Inv(Apply(db, slugify, a))
  {
    hide Inv;
    match a {
      case SigningIn(p, fault) => SignInKeeps(db, p, slugify, fault);
      case Uploading(user, up, fault) => UploadKeeps(db, user, up, fault);
      case Linking(user, l, fault) => LinkKeeps(db, user, l, fault);
      case Visiting(user, segment, comment, fault) => VisitKeeps(db, user, segment, comment, fault);
      case Editing(user, segment, e, fault) => EditKeeps(db, user, segment, e, fault);
      case Detecting(user, segment, fault, failing) => DetectKeeps(db, user, segment, fault, failing);
      case SeeingProfile(user, slug, fault) =>
        var u := UserBySlug(db.users, slug);
        if u.Some? { EventKeeps(db, Event(ViewProfile, Viewer(db, user)).(targetUserId := u.value.id), fault); }
      case SeeingHome(user, fault) => EventKeeps(db, Event(ViewHome, Viewer(db, user)), fault);
      case SeeingOpen(user, fault) => EventKeeps(db, Event(ViewOpen, Viewer(db, user)), fault);
      case Working(commits, tx) => WorkKeeps(db, tx);
    }
  }

  function Run(db: Database, slugify: string -> string, run: seq<Action>): Database
    decreases |run|
  {
    if run == [] then db else Run(Apply(db, slugify, run[0]), slugify, run[1..])
  }

  lemma {:induction false} RunKeeps(db: Database, slugify: string -> string, run: seq<Action>)
    requires Inv(db) && forall i :: 0 <= i < |run| ==> Answered(run[i])
    ensures Inv(Run(db, slugify, run))
    decreases |run|
  {
    hide Inv, Apply;
    if run != [] {
      StepKeeps(db, slugify, run[0]);
      RunKeeps(Apply(db, slugify, run[0]), slugify, run[1..]);
    }
  }

  /** All users of before, and behind them new ones without a role. */
  predicate AddsPlainUsers(before: seq<User>, after: seq<User>) {
    before <= after && forall i :: |before| <= i < |after| ==> after[i].role == ""
  }

  lemma {:induction false} StepAddsPlainUsers(db: Database, slugify: string -> string, a: Action)
    ensures AddsPlainUsers(db.users, Apply(db, slugify, a).users)
  {
    hide FirstUser, FirstPost, UserBySlug, UserById, Targets, ProcessedAll, ReplacePost;
  }

  /** Nothing on the site makes an administrator: a run changes no user and gives no new
      one a role, whatever fails. */
  lemma {:induction false} RunAddsPlainUsers(db: Database, slugify: string -> string, run: seq<Action>)
    ensures AddsPlainUsers(db.users, Run(db, slugify, run).users)
    decreases |run|
  {
    hide Apply;
    if run != [] {
      StepAddsPlainUsers(db, slugify, run[0]);
      RunAddsPlainUsers(Apply(db, slugify, run[0]), slugify, run[1..]);
    }
  }

  /** From an empty store, over every sequential run in which the duplicate check was
      answered, and with any other failures: the invariant holds, and nobody has a role. */
  lemma {:induction false} EveryRun(slugify: string -> string, run: seq<Action>)
    requires forall i :: 0 <= i < |run| ==> Answered(run[i])
    ensures Inv(Run(EMPTY, slugify, run))
    ensures forall i :: 0 <= i < |Run(EMPTY, slugify, run).users| ==> Run(EMPTY, slugify, run).users[i].role == ""
  {
    RunKeeps(EMPTY, slugify, run);
    RunAddsPlainUsers(EMPTY, slugify, run);
  }

  // ---- the duplicate check ----------------------------------------------------------------

  predicate CidStored(ps: seq<Post>, cid: string) {
    exists i :: 0 <= i < |ps| && ps[i].cid == cid
  }

  predicate ScidStored(ps: seq<Post>, scid: nat) {
    exists i :: 0 <= i < |ps| && ps[i].scid == scid
  }

  /** An unanswered check is the only way to a duplicate: an upload keeps the table free
      of duplicates unless its lookup failed and its cid was there already. */
  lemma {:induction false} UploadDuplicatesExactly(db: Database, user: int, up: Upload, fault: Fault)
    requires Inv(db) && UserById(db.users, user).Some? && up.cid.Some? && !fault.WriteFault?
    ensures NoDuplicates(UploadStep(db, user, up, fault).posts)
      <==> !(fault == LookupFault && up.cid.value != "" && CidStored(db.posts, up.cid.value))
  {
    if fault != LookupFault {
      UploadKeeps(db, user, up, fault);
    } else {
      var ps := UploadStep(db, user, up, fault).posts;
      var n := |db.posts|;
      assert ps == db.posts + [UploadedPost(user, up).(id := db.nextId)];
      if i :| 0 <= i < n && db.posts[i].cid == up.cid.value && up.cid.value != "" {
        assert Clash(ps[i], ps[n]);
      }
    }
  }

  /** The same for a link, its SoundCloud number and its lookup. */
  lemma {:induction false} LinkDuplicatesExactly(db: Database, user: int, l: Link, fault: Fault)
    requires Inv(db) && UserById(db.users, user).Some? && LinkId(l).Some? && l.info.Some? && !fault.WriteFault?
    ensures NoDuplicates(LinkStep(db, user, l, fault).posts)
      <==> !(fault == LookupFault && LinkId(l).value != 0 && ScidStored(db.posts, LinkId(l).value))
  {
    hide LinkId;
    if fault != LookupFault {
      LinkKeeps(db, user, l, fault);
    } else {
      var id := LinkId(l).value;
      var ps := LinkStep(db, user, l, fault).posts;
      var n := |db.posts|;
      assert ps == db.posts + [LinkedPost(user, id, l).(id := db.nextId)];
      if i :| 0 <= i < n && db.posts[i].scid == id && id != 0 {
        assert Clash(ps[i], ps[n]);
      }
    }
  }

  /** It happens: the same file sent twice by somebody who has just registered, the second
      time with the lookup failing, is stored twice. */
  lemma {:induction false} SentTwice(slugify: string -> string, p: User, up: Upload)
    requires up.cid.Some? && up.cid.value != ""
    ensures var run := [SigningIn(p, NoFault), Uploading(1, up, NoFault), Uploading(1, up, LookupFault)];
      !NoDuplicates(Run(EMPTY, slugify, run).posts)
  {
    hide Run, NoDuplicates, Inv, CidStored, SignIn, UploadStep;
    var a1, a2, a3 := SigningIn(p, NoFault), Uploading(1, up, NoFault), Uploading(1, up, LookupFault);
    var d1 := Apply(EMPTY, slugify, a1);
    var d2 := Apply(d1, slugify, a2);
    RunOfThree(EMPTY, slugify, a1, a2, a3);
    FirstSignIn(p, slugify);
    SentOnce(d1, up);
    EmptyIsGood();
    StepKeeps(EMPTY, slugify, a1);
    StepKeeps(d1, slugify, a2);
    UploadDuplicatesExactly(d2, 1, up, LookupFault);
  }

  lemma {:induction false} EmptyIsGood()
    ensures Inv(EMPTY)
  {
  }

  lemma {:induction false} FirstSignIn(p: User, slugify: string -> string)
    ensures var d := SignIn(EMPTY, p, slugify, NoFault).0;
      UserById(d.users, 1).Some? && forall i :: 0 <= i < |d.posts| ==> d.posts[i].cid == ""
  {
    hide StoredUser;
    var d := SignIn(EMPTY, p, slugify, NoFault).0;
    assert d == Registered(EMPTY, StoredUser(p, slugify)) && d.users[0].id == 1;
  }

  lemma {:induction false} SentOnce(db: Database, up: Upload)
    requires UserById(db.users, 1).Some? && up.cid.Some? && up.cid.value != ""
    requires forall i :: 0 <= i < |db.posts| ==> db.posts[i].cid == ""
    ensures var after := UploadStep(db, 1, up, NoFault);
      UserById(after.users, 1).Some? && CidStored(after.posts, up.cid.value)
  {
    var row := UploadedPost(1, up).(id := db.nextId);
    var after := UploadStep(db, 1, up, NoFault);
    assert after.posts == db.posts + [row];
    assert after.posts[|db.posts|] == row;
  }

  lemma {:induction false} RunOfThree(db: Database, slugify: string -> string, a: Action, b: Action, c: Action)
    ensures Run(db, slugify, [a, b, c]) == Apply(Apply(Apply(db, slugify, a), slugify, b), slugify, c)
  {
    hide Apply;
    assert [a, b, c][1..] == [b, c] && [b, c][1..] == [c] && [c][1..] == [];
    var d1 := Apply(db, slugify, a);
    var d2 := Apply(d1, slugify, b);
    assert Run(d2, slugify, [c]) == Apply(d2, slugify, c);
  }

  // ---- consequences ------------------------------------------------------------------------

  /** In a reachable state the page of a found track never misses its author's row. */
  lemma {:induction false} AuthorsAreThere(db: Database, u: User, segment: string)
    requires Inv(db) && PostBySlugOrId(db.posts, segment).Some?
    ensures MayChange(db, u, PostBySlugOrId(db.posts, segment).value).Some?
  {
    FoundIsTrack(db.posts, segment);
    var p := PostBySlugOrId(db.posts, segment).value;
    var i :| 0 <= i < |db.posts| && db.posts[i] == p;
    assert GoodPost(db.users, db.posts, db.posts[i]);
    var k :| 0 <= k < |db.users| && db.users[k].id == p.authorId;
  }

  /** In a reachable state "first" is the lowest primary key: of all users with a slug the
      one with the lowest identifier is found, and likewise of all posts that match. */
  lemma {:induction false} FirstIsLowestKey(db: Database, slug: string, c: Post)
    requires Inv(db)
    ensures UserBySlug(db.users, slug).Some? ==>
      forall i :: 0 <= i < |db.users| && Text.ToLower(db.users[i].slug) == slug ==>
        UserBySlug(db.users, slug).value.id <= db.users[i].id
    ensures FirstPost(db.posts, c).Some? ==>
      forall i :: 0 <= i < |db.posts| && PostMatches(c, db.posts[i]) ==>
        FirstPost(db.posts, c).value.id <= db.posts[i].id
  {
    hide NoDuplicates, GoodPosts, GoodLinks, PostMatches, RegisteredOnce;
  }

  /** A pass of the worker never changes whom a rebuild of the links would credit. */
  lemma {:induction false} PassKeepsTargets(p: Post, tx: Tx)
    ensures Targets(Processed(p, Under(SHIPPED, tx))) == Targets(p)
  {
    hide Targets, TargetsOf, Migrate;
    ShippedContent(p, tx);
    SameText(p, Processed(p, Under(SHIPPED, tx)));
  }

  lemma {:induction false} SameText(p: Post, q: Post)
    requires q.SafeTitle() == p.SafeTitle() && q.SafeDescription() == p.SafeDescription()
    ensures Targets(q) == Targets(p)
  {
  }

  /** A stored upload is found again at its own address, and its title and extension
      put together are the name of the file. */
  lemma {:induction false} UploadIsReachable(db: Database, user: int, up: Upload, fault: Fault)
    requires Inv(db) && db.nextId < Decimal.TWO63 && UploadStep(db, user, up, fault) != db
    ensures var after := UploadStep(db, user, up, fault);
      var p := UploadedPost(user, up).(id := db.nextId);
      && PostBySlugOrId(after.posts, Text.TrimPrefix(p.CanonicalURL(), "/post/")) == Some(p)
      && (!Text.Free(up.filename, '.') ==> p.providerTitle + "." + p.extension == p.attachment)
  {
    var after := UploadStep(db, user, up, fault);
    var n := |db.posts|;
    assert after.posts[n] == UploadedPost(user, up).(id := db.nextId);
    AddressFindsTrack(after.posts, n, db.nextId + 1);
    Naming.SplitNameRebuilds(up.filename);
  }

  /** The track found was rewritten, and nothing else was touched. */
  predicate OneTrackEdited(db: Database, after: Database, segment: string, e: Edit) {
    match PostBySlugOrId(db.posts, segment)
    case Some(p) =>
      && p.kind == Track
      && after == db.(posts := after.posts) && |after.posts| == |db.posts|
      && forall i :: 0 <= i < |db.posts| ==>
           if db.posts[i] == p then Retyped(p, after.posts[i], e) else after.posts[i] == db.posts[i]
    case None => false
  }

  /** The author and administrators change a track, its title, body and lyrics, unless a
      statement is refused; and nobody else changes anything. */
  lemma {:induction false} EditChangesOneTrack(db: Database, user: int, segment: string, e: Edit, fault: Fault)
    requires Inv(db)
    ensures var after := EditStep(db, user, segment, e, fault);
      if AuthorOrAdmin(db, user, segment) && fault != LookupFault && !fault.WriteFault?
      then OneTrackEdited(db, after, segment, e) else after == db
  {
    hide NoDuplicates, GoodPosts, GoodUsers, GoodLinks, PostMatches, PostBySlugOrId, EditedPost, AscendingPosts;
    hide AuthorOrAdmin, MayChange, Retyped;
    AccessExactly(db, user, segment, fault);
    if AccessTo(db, user, segment, fault).Allowed? {
      var p := AccessTo(db, user, segment, fault).track;
      FoundIsTrack(db.posts, segment);
      EditedKeepsId(p, e);
      EditRetypes(p, e);
      ReplaceOne(db.posts, db.nextId, p, EditedPost(p, e));
    }
  }

  lemma {:induction false} EditRetypes(p: Post, e: Edit)
    ensures Retyped(p, EditedPost(p, e), e)
  {
    hide Text.TrimSpace;
  }

  lemma {:induction false} EditedKeepsId(p: Post, e: Edit)
    ensures EditedPost(p, e).id == p.id
  {
  }

  lemma {:induction false} ReplaceOne(ps: seq<Post>, bound: int, p: Post, q: Post)
    requires AscendingPosts(ps, bound) && p in ps && q.id == p.id
    ensures forall i :: 0 <= i < |ps| ==> ReplacePost(ps, q)[i] == if ps[i] == p then q else ps[i]
  {
    var k :| 0 <= k < |ps| && ps[k] == p;
    assert forall i :: 0 <= i < |ps| && i != k ==> ps[i].id != p.id;
  }

  /** The comments shown under a post: a condition with identifier zero would show all. */
  function CommentsOn(ps: seq<Post>, track: int): seq<Post> {
    if ps == [] then []
    else
      var last := ps[|ps| - 1];
      var c := BLANK.(kind := Comment, targetPostId := track, visibility := Public);
      CommentsOn(ps[..|ps| - 1], track) + (if PostMatches(c, last) then [last] else [])
  }

  /** A comment that is stored shows up last under its own track and under no other. */
  lemma {:induction false} CommentShows(db: Database, user: int, segment: string, comment: string, other: int)
    requires Inv(db) && PostBySlugOrId(db.posts, segment).Some? && UserById(db.users, user).Some?
    requires user != 0 && !Text.AllSpace(comment) && other != 0
    ensures var track := PostBySlugOrId(db.posts, segment).value.id;
      var after := VisitStep(db, user, segment, Some(comment), NoFault);
      var c := CommentPost(user, Text.TrimSpace(comment), track).(id := db.nextId);
      CommentsOn(after.posts, other) == CommentsOn(db.posts, other) + (if other == track then [c] else [])
  {
    hide NoDuplicates, GoodPosts, GoodUsers, GoodLinks, AscendingPosts, Text.TrimSpace, UserById, PostBySlugOrId;
    Text.TrimsToNothing(comment);
    var track := PostBySlugOrId(db.posts, segment).value.id;
    var c := CommentPost(user, Text.TrimSpace(comment), track).(id := db.nextId);
    FoundIsTrack(db.posts, segment);
    assert (db.posts + [c])[..|db.posts|] == db.posts;
  }
}
