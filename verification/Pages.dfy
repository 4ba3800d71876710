/** The handlers that change the database: adding a track, commenting, viewing,
    editing and detecting relationships. */
module Pages {
  import opened Prelude
  import opened Schema
  import opened Accounts
  import opened Featuring
  import opened Store
  import Decimal
  import FeatExtract
  import Naming
  import Text

  /** An upload form: what `ipfs add` answered, and the file as the browser named it. */
  datatype Upload = Upload(cid: Option<string>, filename: string, mime: string, size: int, now: int)

  /** What SoundCloud tells about a track. */
  datatype TrackInfo = TrackInfo(
    title: string, genre: string, tagList: string, description: string, createdAt: Option<int>)

  /** A link form: the host of the link, the identifier found in the resolved link, and
      the answer of SoundCloud. */
  datatype Link = Link(host: string, idText: Option<string>, info: Option<TrackInfo>, draft: bool, now: int)

  datatype Response = Home | Rejected | AlreadyExists(id: int) | Created(id: int)
                    | Saved | Shown | Missing | Trouble | Crashed

  // ---- what each page does to the tables ---------------------------------------------

  function UploadedPost(author: int, up: Upload): Post
    requires up.cid.Some?
  {
    var name := Naming.SplitName(up.filename);
    BLANK.(kind := Track, visibility := Public, authorId := author, providerTitle := name.base, sortDate := up.now,
           provider := IPFS, cid := up.cid.value, mime := up.mime, sizeBytes := up.size,
           extension := name.extension, attachment := up.filename)
  }

  function LinkedPost(author: int, scid: nat, l: Link): Post
    requires l.info.Some?
  {
    var t := l.info.value;
    BLANK.(kind := Track, visibility := if l.draft then Draft else Public, authorId := author,
           scid := scid, providerTitle := t.title, providerDescription := t.description,
           sortDate := if t.createdAt.Some? then t.createdAt.value else l.now,
           tags := Naming.SoundCloudTags(t.genre, t.tagList), provider := SoundCloud)
  }

  function Inserted(db: Database, p: Post, fault: Fault): Database {
    if fault.WriteFault? then db else InsertPost(db, p)
  }

  /** A lookup error is read as "no such track". */
  predicate Taken(db: Database, c: Post, fault: Fault) {
    fault != LookupFault && FirstPost(db.posts, c).Some? && FirstPost(db.posts, c).value.id != 0
  }

  function UploadStep(db: Database, user: int, up: Upload, fault: Fault): Database {
    if UserById(db.users, user).None? || up.cid.None? || Taken(db, BLANK.(cid := up.cid.value), fault) then db
    else Inserted(db, UploadedPost(user, up), fault)
  }

  function LinkId(l: Link): Option<nat> {
    if l.host == "soundcloud.com" && l.idText.Some? then Decimal.ParseUint(l.idText.value) else None
  }

  function LinkStep(db: Database, user: int, l: Link, fault: Fault): Database {
    if UserById(db.users, user).None? || LinkId(l).None? then db
    else if Taken(db, BLANK.(scid := LinkId(l).value), fault) || l.info.None? then db
    else Inserted(db, LinkedPost(user, LinkId(l).value, l), fault)
  }

  /** A session whose user is gone, or could not be loaded, counts as anonymous. */
  function Viewer(db: Database, user: int): int {
    if UserById(db.users, user).Some? then user else 0
  }

  function CommentPost(author: int, body: string, track: int): Post {
    BLANK.(kind := Comment, authorId := author, body := body, visibility := Public, targetPostId := track)
  }

  /** The track that a page is about. */
  function TrackOf(db: Database, segment: string, fault: Fault): (p: Option<Post>)
    ensures p.Some? ==> p == PostBySlugOrId(db.posts, segment)
  {
    if fault == LookupFault then None else PostBySlugOrId(db.posts, segment)
  }

  /** A signed-in user said something; a blank comment goes on as a view. */
  predicate Comments(db: Database, user: int, comment: Option<string>) {
    comment.Some? && Viewer(db, user) != 0 && Text.TrimSpace(comment.value) != ""
  }

  function VisitStep(db: Database, user: int, segment: string, comment: Option<string>, fault: Fault): Database {
    match TrackOf(db, segment, fault)
    case None => db
    case Some(p) =>
      if Comments(db, user, comment) then
        Inserted(db, CommentPost(Viewer(db, user), Text.TrimSpace(comment.value), p.id), fault)
      else if fault == QueryFault then db
      else Inserted(db, Event(ViewPost, Viewer(db, user)).(targetPostId := p.id), fault)
  }

  /** Author or administrator; None when the author's row is missing and is needed. */
  function MayChange(db: Database, u: User, p: Post): Option<bool> {
    if u.role == "admin" then Some(true)
    else if UserById(db.users, p.authorId).None? then None
    else Some(u.id == p.authorId)
  }

  datatype Access = NoUser | NoTrack | AuthorMissing | Forbidden | Allowed(track: Post)

  /** Whether somebody may change the track under a path segment. */
  function AccessTo(db: Database, user: int, segment: string, fault: Fault): (a: Access)
    ensures a.Allowed? ==>
      && UserById(db.users, user).Some? && PostBySlugOrId(db.posts, segment) == Some(a.track)
      && MayChange(db, UserById(db.users, user).value, a.track) == Some(true)
  {
    match (UserById(db.users, user), TrackOf(db, segment, fault))
    case (None, _) => NoUser
    case (Some(_), None) => NoTrack
    case (Some(u), Some(p)) =>
      match MayChange(db, u, p)
      case None => AuthorMissing
      case Some(may) => if may then Allowed(p) else Forbidden
  }

  /** Both are there, and the user is the author of the track or an administrator. */
  predicate AuthorOrAdmin(db: Database, user: int, segment: string) {
    match (UserById(db.users, user), PostBySlugOrId(db.posts, segment))
    case (Some(u), Some(p)) => u.role == "admin" || p.authorId == user
    case _ => false
  }

  /** Authors and administrators are let in, and nobody else. */
  lemma {:induction false} AccessExactly(db: Database, user: int, segment: string, fault: Fault)
    ensures AccessTo(db, user, segment, fault).Allowed? <==> fault != LookupFault && AuthorOrAdmin(db, user, segment)
  {
    hide PostBySlugOrId;
  }

  datatype Edit = Edit(title: string, body: string, lyrics: string)

  /** The three typed fields of a track, trimmed, but the title of an upload as typed; and
      no other field changed. */
  predicate Retyped(p: Post, q: Post, e: Edit) {
    && q.title == (if p.provider == IPFS then e.title else Text.TrimSpace(e.title))
    && q.body == Text.TrimSpace(e.body) && q.lyrics == Text.TrimSpace(e.lyrics)
    && q.(title := p.title, body := p.body, lyrics := p.lyrics) == p
  }

  predicate OneRetyped(before: seq<Post>, p: Post, e: Edit, after: seq<Post>) {
    && |after| == |before|
    && forall i :: 0 <= i < |before| ==>
         if before[i].id == p.id then Retyped(p, after[i], e) else after[i] == before[i]
  }

  /** The title of an uploaded track is stored as typed. */
  function EditedPost(p: Post, e: Edit): Post {
    p.(title := if p.provider == IPFS then e.title else Text.TrimSpace(e.title),
       body := Text.TrimSpace(e.body), lyrics := Text.TrimSpace(e.lyrics))
  }

  function EditStep(db: Database, user: int, segment: string, e: Edit, fault: Fault): Database {
    match AccessTo(db, user, segment, fault)
    case Allowed(p) => if fault.WriteFault? then db else db.(posts := ReplacePost(db.posts, EditedPost(p, e)))
    case _ => db
  }

  /** The names in the texts of a track. */
  function NamesIn(p: Post): seq<string> {
    FeatExtract.Mentions(p.SafeTitle() + "\n\n" + p.SafeDescription())
  }

  predicate CreditsTexts(before: Database, p: Post, after: Database) {
    AllKnown(before.users, NamesIn(p)) && Credits(before, p.id, NamesIn(p), after)
  }

  lemma {:induction false} BothThere(db: Database, user: int, segment: string)
    requires AuthorOrAdmin(db, user, segment)
    ensures UserById(db.users, user).Some? && PostBySlugOrId(db.posts, segment).Some?
  {
  }

  function DetectStep(db: Database, user: int, segment: string, fault: Fault, failing: Option<nat>): Database {
    match AccessTo(db, user, segment, fault)
    case Allowed(p) =>
      var ts := Targets(p);
      if Succeeds(db.users, ts, failing) then Rebuilt(db, p.id, Credited(db.users, ts)) else db
    case _ => db
  }

  function ProfileStep(db: Database, user: int, slug: string, fault: Fault): Database {
    match UserBySlug(db.users, slug)
    case None => db
    case Some(u) =>
      if fault == LookupFault then db
      else Inserted(db, Event(ViewProfile, Viewer(db, user)).(targetUserId := u.id), fault)
  }

  // ---- the handlers ------------------------------------------------------------------

  class Service {
    const store: Store

    constructor (store: Store)
      ensures this.store == store
    {
      this.store := store;
    }

    method NewUpload(user: int, up: Upload, fault: Fault) returns (r: Response)
      modifies store`db
      ensures store.db == UploadStep(old(store.db), user, up, fault)
      ensures r.Created? ==> store.db.posts != [] && store.db.posts[|store.db.posts| - 1].id == r.id
      ensures !r.Created? ==> store.db == old(store.db)
    {
      hide UserById, FirstPost, Text.Split, Text.Join;
      var found := UserById(store.db.users, user);
      if found.None? { return Home; }
      if up.cid.None? { return Rejected; }
      var existing := store.GetTrackByCID(up.cid.value, fault);
      if existing.Ok? && existing.value.id != 0 { return AlreadyExists(existing.value.id); }
      var parts := Text.Split(up.filename, '.');
      var extension, base, n := "blob", up.filename, |parts|;
      if n >= 2 {
        extension := parts[n - 1];
        base := Text.Join(parts[..n - 1], ".");
      }
      var post := BLANK;
      post := post.(kind := Track, visibility := Public, authorId := user, providerTitle := base, sortDate := up.now);
      post := post.(provider := IPFS, cid := up.cid.value, mime := up.mime, sizeBytes := up.size);
      post := post.(extension := extension, attachment := up.filename);
      r := Publish(post, fault);
    }

    method NewLink(user: int, l: Link, fault: Fault) returns (r: Response)
      modifies store`db
      ensures store.db == LinkStep(old(store.db), user, l, fault)
      ensures r.Created? ==> store.db.posts != [] && store.db.posts[|store.db.posts| - 1].id == r.id
      ensures !r.Created? ==> store.db == old(store.db)
    {
      hide UserById, FirstPost, Text.Split, Text.Join;
      var found := UserById(store.db.users, user);
      if found.None? { return Home; }
      var post := BLANK.(kind := Track, visibility := Public, authorId := user, sortDate := l.now);
      if l.host != "soundcloud.com" || l.idText.None? { return Rejected; }
      var scid := Decimal.ParseUint(l.idText.value);
      if scid.None? { return Rejected; }
      post := post.(scid := scid.value);
      var existing := store.GetTrackBySCID(post.scid, fault);
      if existing.Ok? && existing.value.id != 0 { return AlreadyExists(existing.value.id); }
      if l.info.None? { return Rejected; }
      var track := l.info.value;
      post := post.(providerTitle := track.title, providerDescription := track.description);
      if track.createdAt.Some? {
        post := post.(sortDate := track.createdAt.value);
      }
      var tags := [track.genre] + Text.Split(track.tagList, ' ');
      post := post.(tags := Text.Join(tags, ", "), provider := SoundCloud);
      if l.draft {
        post := post.(visibility := Draft);
      }
      r := Publish(post, fault);
    }

    method Publish(post: Post, fault: Fault) returns (r: Response)
      modifies store`db
      ensures store.db == Inserted(old(store.db), post, fault)
      ensures r.Created? ==> store.db.posts != [] && store.db.posts[|store.db.posts| - 1].id == r.id
      ensures if fault.WriteFault? then r == Trouble && store.db == old(store.db) else r.Created?
    {
      var made := store.CreatePost(post, fault);
      r := if made.Ok? then Created(made.value.id) else Trouble;
    }

    /** A stored comment leads back to the track; a comment query that fails comes before
        the view is recorded, and a view that cannot be recorded is only reported. */
    method PostPage(user: int, segment: string, comment: Option<string>, fault: Fault) returns (r: Response)
      modifies store`db
      ensures store.db == VisitStep(old(store.db), user, segment, comment, fault)
      ensures r ==
        if TrackOf(old(store.db), segment, fault).None? then Missing
        else if Comments(old(store.db), user, comment) then (if fault.WriteFault? then Trouble else Saved)
        else if fault == QueryFault then Trouble else Shown
    {
      var viewer := Viewer(store.db, user);
      var post := store.GetPostBySlugOrID(segment, fault);
      if post.Err? { return Missing; }
      if comment.Some? && viewer != 0 {
        var body := Text.TrimSpace(comment.value);
        if body != "" {
          var made := store.CreatePost(CommentPost(viewer, body, post.value.id), fault);
          return if made.Err? then Trouble else Saved;
        }
      }
      if fault == QueryFault { return Trouble; }
      var seen := store.CreatePost(Event(ViewPost, viewer).(targetPostId := post.value.id), fault);
      r := Shown;
    }

    method PostEditPage(user: int, segment: string, e: Edit, fault: Fault) returns (r: Response)
      modifies store`db
      ensures r == Saved <==> fault != LookupFault && !fault.WriteFault? && AuthorOrAdmin(old(store.db), user, segment)
      ensures r == Saved ==>
        var p := PostBySlugOrId(old(store.db).posts, segment).value;
        OneRetyped(old(store.db).posts, p, e, store.db.posts) && store.db == old(store.db).(posts := store.db.posts)
      ensures r != Saved ==> store.db == old(store.db)
      ensures store.db == EditStep(old(store.db), user, segment, e, fault)
      ensures r ==
        match AccessTo(old(store.db), user, segment, fault)
        case NoUser => Home
        case NoTrack => Missing
        case Forbidden => Missing
        case AuthorMissing => Crashed
        case Allowed(_) => if fault.WriteFault? then Trouble else Saved
    {
      hide Text.TrimSpace, UserById, PostBySlugOrId, ReplacePost, AuthorOrAdmin, FirstAsked, Asked;
      AccessExactly(store.db, user, segment, fault);
      var found := UserById(store.db.users, user);
      if found.None? { return Home; }
      var post := store.GetPostBySlugOrID(segment, fault);
      if post.Err? { return Missing; }
      var allowed := MayChange(store.db, found.value, post.value);
      if allowed.None? { return Crashed; }
      if !allowed.value { return Missing; }
      var title := Text.TrimSpace(e.title);
      if post.value.provider == IPFS {
        title := e.title;
      }
      var fields := post.value.(title := title, body := Text.TrimSpace(e.body), lyrics := Text.TrimSpace(e.lyrics));
      var ok := store.UpdatePost(fields, fault);
      r := if ok then Saved else Trouble;
    }

    /** The page crashes, and changes nothing, on a mention whose lookup gives no user. */
    method DetectRelationships(user: int, segment: string, fault: Fault, failing: Option<nat>) returns (r: Response)
      modifies store`db
      ensures store.db == DetectStep(old(store.db), user, segment, fault, failing)
      ensures r == Saved ==> fault != LookupFault && AuthorOrAdmin(old(store.db), user, segment)
      ensures r == Saved ==>
        CreditsTexts(old(store.db), PostBySlugOrId(old(store.db).posts, segment).value, store.db)
      ensures AuthorOrAdmin(old(store.db), user, segment) && fault == NoFault && failing.None? ==>
        var p := PostBySlugOrId(old(store.db).posts, segment).value;
        r == if AllKnown(old(store.db).users, NamesIn(p)) then Saved else Crashed
      ensures r != Saved ==> store.db == old(store.db)
      ensures r ==
        match AccessTo(old(store.db), user, segment, fault)
        case NoUser => Home
        case NoTrack => Missing
        case Forbidden => Missing
        case AuthorMissing => Crashed
        case Allowed(p) =>
          if Succeeds(old(store.db).users, Targets(p), failing) then Saved
          else if PanicsAmong(old(store.db).users, Targets(p), failing) then Crashed
          else Trouble
    {
      hide Targets, UserById, PostBySlugOrId, Succeeds, PanicsAmong, AuthorOrAdmin, FirstAsked, Asked;
      hide AllKnown, Credits, Rebuilt, FeatExtract.Mentions;
      AccessExactly(store.db, user, segment, fault);
      if AuthorOrAdmin(store.db, user, segment) { BothThere(store.db, user, segment); }
      var found := UserById(store.db.users, user);
      if found.None? { return Home; }
      var post := store.GetPostBySlugOrID(segment, fault);
      if post.Err? { return Missing; }
      var allowed := MayChange(store.db, found.value, post.value);
      if allowed.None? { return Crashed; }
      if !allowed.value { return Missing; }
      var o := store.CheckAndUpdatePost(post.value, failing);
      r := match o case Committed => Saved case Failed => Trouble case Panicked => Crashed;
    }

    /** An unknown profile crashes, and so does a lookup that fails. */
    method ProfilePage(user: int, slug: string, fault: Fault) returns (r: Response)
      modifies store`db
      ensures store.db == ProfileStep(old(store.db), user, slug, fault)
      ensures r == if fault == LookupFault || UserBySlug(old(store.db).users, slug).None? then Crashed else Shown
    {
      var profile := store.GetUserBySlug(slug, fault);
      if profile.None? { return Crashed; }
      var event := Event(ViewProfile, Viewer(store.db, user)).(targetUserId := profile.value.id);
      var seen := store.CreatePost(event, fault);
      r := Shown;
    }

    /** The home and statistics pages record that they were seen. */
    method CountedPage(kind: Kind, user: int, fault: Fault) returns (r: Response)
      requires kind in {ViewHome, ViewOpen}
      modifies store`db
      ensures !fault.WriteFault? ==>
        && |store.db.posts| == |old(store.db).posts| + 1 && old(store.db).posts <= store.db.posts
        && IsEvent(store.db.posts[|old(store.db).posts|], old(store.db).nextId, kind, Viewer(old(store.db), user), 0, 0)
      ensures store.db == Inserted(old(store.db), Event(kind, Viewer(old(store.db), user)), fault)
    {
      var seen := store.CreatePost(Event(kind, Viewer(store.db, user)), fault);
      r := Shown;
    }
  }
}
