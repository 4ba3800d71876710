/** The tables of the site and the queries made on them. A table is the sequence of
    its rows in primary-key order; identifiers come from one increasing counter. */
module Schema {
  import opened Prelude
  import Text
  import Decimal

  datatype Kind = UnknownKind | Track | Login | Register | LinkDiscord
                | ViewProfile | ViewPost | ViewOpen | ViewHome | Comment
  datatype Visibility = UnknownVisibility | Public | Draft
  datatype Provider = UnknownProvider | SoundCloud | IPFS

  /** A NULL column is None. */
  datatype Post = Post(
    id: int, kind: Kind, visibility: Visibility, authorId: int,
    title: string, slug: string, body: string, lyrics: string, sortDate: int,
    version: Option<int>, error: Option<string>,
    provider: Provider, providerTitle: string, providerDescription: string,
    genre: string, tags: string, scid: nat,
    cid: string, mime: string, sizeBytes: int, extension: string, attachment: string,
    targetUserId: int, targetPostId: int)
  {
    function SafeTitle(): string {
      if title != "" then title else if providerTitle != "" then providerTitle else "noname"
    }

    function SafeDescription(): string {
      if body != "" then body else providerDescription
    }

    function CanonicalURL(): string {
      "/post/" + Decimal.Print(id)
    }
  }

  const BLANK := Post(0, UnknownKind, UnknownVisibility, 0, "", "", "", "", 0, Some(0), Some(""),
                      UnknownProvider, "", "", "", "", 0, "", "", 0, "", "", 0, 0)

  datatype User = User(
    id: int, email: string, slug: string, locale: string, avatar: string,
    discordId: string, discordUsername: string, role: string,
    twitter: string, soundcloud: string)

  datatype LinkKind = UnknownLink | FeaturingUser | RemixOfTrack | NewVersionOfTrack | InspiredByTrack | RemixOfUser

  datatype Relationship = Relationship(
    id: int, kind: LinkKind, sourcePost: Option<int>, targetPost: Option<int>,
    sourceUser: Option<int>, targetUser: Option<int>)

  datatype Database = Database(nextId: int, users: seq<User>, posts: seq<Post>, links: seq<Relationship>)

  /** A struct condition compares the fields that are not zero, and only those. */
  predicate PostMatches(c: Post, p: Post) {
    && (c.id != 0 ==> p.id == c.id)
    && (c.kind != UnknownKind ==> p.kind == c.kind)
    && (c.visibility != UnknownVisibility ==> p.visibility == c.visibility)
    && (c.authorId != 0 ==> p.authorId == c.authorId)
    && (c.slug != "" ==> p.slug == c.slug)
    && (c.provider != UnknownProvider ==> p.provider == c.provider)
    && (c.scid != 0 ==> p.scid == c.scid)
    && (c.cid != "" ==> p.cid == c.cid)
    && (c.targetUserId != 0 ==> p.targetUserId == c.targetUserId)
    && (c.targetPostId != 0 ==> p.targetPostId == c.targetPostId)
  }

  predicate UserMatches(c: User, u: User) {
    && (c.id != 0 ==> u.id == c.id)
    && (c.email != "" ==> u.email == c.email)
    && (c.slug != "" ==> u.slug == c.slug)
    && (c.locale != "" ==> u.locale == c.locale)
    && (c.avatar != "" ==> u.avatar == c.avatar)
    && (c.discordId != "" ==> u.discordId == c.discordId)
    && (c.discordUsername != "" ==> u.discordUsername == c.discordUsername)
    && (c.role != "" ==> u.role == c.role)
    && (c.twitter != "" ==> u.twitter == c.twitter)
    && (c.soundcloud != "" ==> u.soundcloud == c.soundcloud)
  }

  /** `First`: the matching row with the lowest primary key, which comes first. */
  function FirstPost(ps: seq<Post>, c: Post): (r: Option<Post>)
    ensures r.None? <==> forall i :: 0 <= i < |ps| ==> !PostMatches(c, ps[i])
    ensures r.Some? ==> r.value in ps && PostMatches(c, r.value)
    ensures r.Some? ==>
      exists i :: 0 <= i < |ps| && ps[i] == r.value && forall j :: 0 <= j < i ==> !PostMatches(c, ps[j])
  {
    if ps == [] then None else if PostMatches(c, ps[0]) then Some(ps[0]) else FirstPost(ps[1..], c)
  }

  function FirstUser(us: seq<User>, c: User): (r: Option<User>)
    ensures r.None? <==> forall i :: 0 <= i < |us| ==> !UserMatches(c, us[i])
    ensures r.Some? ==> r.value in us && UserMatches(c, r.value)
    ensures r.Some? ==>
      exists i :: 0 <= i < |us| && us[i] == r.value && forall j :: 0 <= j < i ==> !UserMatches(c, us[j])
  {
    if us == [] then None else if UserMatches(c, us[0]) then Some(us[0]) else FirstUser(us[1..], c)
  }

  /** Row `i` is the first one with the slug, letter case aside. */
  predicate FirstWithSlug(us: seq<User>, slug: string, i: nat) {
    && i < |us| && Text.ToLower(us[i].slug) == slug
    && forall j :: 0 <= j < i ==> Text.ToLower(us[j].slug) != slug
  }

  /** `LOWER(slug) = ?` and First. */
  function UserBySlug(us: seq<User>, slug: string): (r: Option<User>)
    ensures r.None? <==> forall i :: 0 <= i < |us| ==> Text.ToLower(us[i].slug) != slug
    ensures r.Some? ==> r.value in us && Text.ToLower(r.value.slug) == slug
    ensures r.Some? ==> exists i :: 0 <= i < |us| && FirstWithSlug(us, slug, i) && us[i] == r.value
  {
    if us == [] then None
    else if Text.ToLower(us[0].slug) == slug then Some(us[0])
    else
      FirstShifts(us, slug);
      UserBySlug(us[1..], slug)
  }

  lemma {:induction false} FirstShifts(us: seq<User>, slug: string)
    requires us != [] && Text.ToLower(us[0].slug) != slug
    ensures forall i: nat :: FirstWithSlug(us[1..], slug, i) ==> i + 1 < |us| && FirstWithSlug(us, slug, i + 1)
  {
    forall i: nat | FirstWithSlug(us[1..], slug, i) ensures i + 1 < |us| && FirstWithSlug(us, slug, i + 1) {
      assert forall j :: 0 < j < |us| ==> us[1..][j - 1] == us[j];
    }
  }

  function UserById(us: seq<User>, id: int): (r: Option<User>)
    ensures r.None? <==> forall i :: 0 <= i < |us| ==> us[i].id != id
    ensures r.Some? ==> r.value in us && r.value.id == id
  {
    if us == [] then None else if us[0].id == id then Some(us[0]) else UserById(us[1..], id)
  }

  /** A path segment that reads as a number selects by identifier, any other by slug. */
  function PostCondition(segment: string): Post {
    match Decimal.ParseInt(segment)
    case Some(n) => BLANK.(id := n, kind := Track)
    case None => BLANK.(slug := segment, kind := Track)
  }

  function PostBySlugOrId(ps: seq<Post>, segment: string): Option<Post> {
    FirstPost(ps, PostCondition(segment))
  }

  /** What a path segment asks for: a number other than zero asks for the track with that
      identifier, another text for a track with that slug, and zero and the empty text
      for any track. */
  predicate Asked(segment: string, p: Post) {
    p.kind == Track &&
    match Decimal.ParseInt(segment)
    case Some(n) => n == 0 || p.id == n
    case None => segment == "" || p.slug == segment
  }

  /** Row `i` is the first one asked for. */
  predicate FirstAsked(ps: seq<Post>, segment: string, i: nat) {
    i < |ps| && Asked(segment, ps[i]) && forall j :: 0 <= j < i ==> !Asked(segment, ps[j])
  }

  lemma {:induction false} MatchesAsked(segment: string)
    ensures forall p :: PostMatches(PostCondition(segment), p) <==> Asked(segment, p)
  {
    hide Decimal.ParseInt;
  }

  /** The lookup gives the first row asked for, and nothing exactly when no row is. */
  lemma {:induction false} LookupExactly(ps: seq<Post>, segment: string)
    ensures PostBySlugOrId(ps, segment).None? <==> forall i :: 0 <= i < |ps| ==> !Asked(segment, ps[i])
    ensures PostBySlugOrId(ps, segment).Some? ==>
      exists i :: 0 <= i < |ps| && FirstAsked(ps, segment, i) && ps[i] == PostBySlugOrId(ps, segment).value
  {
    hide Asked, PostMatches, FirstPost;
    var c := PostCondition(segment);
    MatchesAsked(segment);
    if PostBySlugOrId(ps, segment).Some? {
      var i :| 0 <= i < |ps| && ps[i] == PostBySlugOrId(ps, segment).value
               && PostMatches(c, ps[i]) && forall j :: 0 <= j < i ==> !PostMatches(c, ps[j]);
      assert FirstAsked(ps, segment, i);
    } else {
      forall i | 0 <= i < |ps| ensures !Asked(segment, ps[i]) {
        assert !PostMatches(c, ps[i]);
      }
    }
  }

  function InsertPost(db: Database, p: Post): Database {
    db.(posts := db.posts + [p.(id := db.nextId)], nextId := db.nextId + 1)
  }

  /** `UPDATE ... WHERE id = q.id`, all columns. */
  function ReplacePost(ps: seq<Post>, q: Post): (r: seq<Post>)
    ensures |r| == |ps|
    ensures forall i :: 0 <= i < |ps| ==> r[i] == if ps[i].id == q.id then q else ps[i]
  {
    if ps == [] then [] else [if ps[0].id == q.id then q else ps[0]] + ReplacePost(ps[1..], q)
  }

  predicate AscendingPosts(ps: seq<Post>, bound: int) {
    && (forall i :: 0 <= i < |ps| ==> 0 < ps[i].id < bound)
    && (forall i, j :: 0 <= i < j < |ps| ==> ps[i].id < ps[j].id)
  }

  // ---- identifiers and addresses -------------------------------------------

  /** Every lookup by path segment answers with a track. */
  lemma {:induction false} FoundIsTrack(ps: seq<Post>, segment: string)
    requires PostBySlugOrId(ps, segment).Some?
    ensures PostBySlugOrId(ps, segment).value in ps && PostBySlugOrId(ps, segment).value.kind == Track
  {
  }

  /** The address of a stored track leads back to it; a slug that looks like its
      number cannot shadow it. */
  lemma {:induction false} AddressFindsTrack(ps: seq<Post>, i: nat, bound: int)
    requires AscendingPosts(ps, bound) && bound <= Decimal.TWO63
    requires i < |ps| && ps[i].kind == Track
    ensures PostBySlugOrId(ps, Text.TrimPrefix(ps[i].CanonicalURL(), "/post/")) == Some(ps[i])
  {
    var url := ps[i].CanonicalURL();
    assert url[|"/post/"|..] == Decimal.Print(ps[i].id);
    Decimal.ParsePrint(ps[i].id);
    var c := BLANK.(id := ps[i].id, kind := Track);
    assert PostMatches(c, ps[i]);
    assert forall j :: 0 <= j < |ps| && j != i ==> ps[j].id != ps[i].id;
  }

  /** A track whose slug reads as another number is never found by its slug. */
  lemma {:induction false} NumericSlugIsIdentifier(ps: seq<Post>, p: Post)
    requires PostBySlugOrId(ps, p.slug) == Some(p)
    requires Decimal.ParseInt(p.slug).Some? && Decimal.ParseInt(p.slug).value != 0
    ensures p.id == Decimal.ParseInt(p.slug).value
  {
  }
}
