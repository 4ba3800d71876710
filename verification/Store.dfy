/** The store of the site: methods that change the database held in `db`. A
    transaction works on a copy that is assigned back when it commits. */
module Store {
  import opened Prelude
  import opened Schema
  import opened Featuring
  import opened Accounts
  import FeatExtract
  import FeatPattern
  import FeatTexts
  import Text

  /** How an attempt to rebuild the links of a post ends. An unknown mention, or a lookup
      that fails, makes the code dereference a nil user, and the panic rolls the
      transaction back. */
  datatype Outcome = Committed | Failed | Panicked

  /** The `n`-th statement of a transaction is refused. */
  predicate Refused(failing: Option<nat>, n: nat) {
    failing == Some(n)
  }

  predicate RefusedBefore(failing: Option<nat>, n: nat) {
    failing.Some? && failing.value < n
  }

  function Found(o: Option<Post>): Result<Post, DbError> {
    if o.Some? then Ok(o.value) else Err(NotFound)
  }

  class Store {
    var db: Database
    const slugify: string -> string

    constructor (slugify: string -> string)
      ensures db == Database(1, [], [], []) && this.slugify == slugify
    {
      this.slugify := slugify;
      db := Database(1, [], [], []);
    }

    /** Where(Post{IPFSCID: cid}): an empty cid filters nothing. */
    method GetTrackByCID(cid: string, fault: Fault) returns (r: Result<Post, DbError>)
      ensures fault == LookupFault ==> r == Err(Broken)
      ensures fault != LookupFault && r.Ok? ==> r.value in db.posts && (cid != "" ==> r.value.cid == cid)
      ensures fault != LookupFault && r.Err? ==>
        forall i :: 0 <= i < |db.posts| ==> cid != "" && db.posts[i].cid != cid
      ensures fault != LookupFault ==> r == Found(FirstPost(db.posts, BLANK.(cid := cid)))
    {
      if fault == LookupFault { return Err(Broken); }
      var found := FirstPost(db.posts, BLANK.(cid := cid));
      if found.Some? {
        r := Ok(found.value);
      } else {
        assert forall i :: 0 <= i < |db.posts| ==> !PostMatches(BLANK.(cid := cid), db.posts[i]);
        r := Err(NotFound);
      }
    }

    method GetTrackBySCID(scid: nat, fault: Fault) returns (r: Result<Post, DbError>)
      ensures fault == LookupFault ==> r == Err(Broken)
      ensures fault != LookupFault && r.Ok? ==> r.value in db.posts && (scid != 0 ==> r.value.scid == scid)
      ensures fault != LookupFault && r.Err? ==>
        forall i :: 0 <= i < |db.posts| ==> scid != 0 && db.posts[i].scid != scid
      ensures fault != LookupFault ==> r == Found(FirstPost(db.posts, BLANK.(scid := scid)))
    {
      if fault == LookupFault { return Err(Broken); }
      var found := FirstPost(db.posts, BLANK.(scid := scid));
      if found.Some? {
        r := Ok(found.value);
      } else {
        assert forall i :: 0 <= i < |db.posts| ==> !PostMatches(BLANK.(scid := scid), db.posts[i]);
        r := Err(NotFound);
      }
    }

    method GetPostBySlugOrID(segment: string, fault: Fault) returns (r: Result<Post, DbError>)
      ensures fault != LookupFault && r.Ok? ==>
        exists i :: 0 <= i < |db.posts| && FirstAsked(db.posts, segment, i) && db.posts[i] == r.value
      ensures r.Err? <==>
        fault == LookupFault || forall i :: 0 <= i < |db.posts| ==> !Asked(segment, db.posts[i])
      ensures r.Ok? ==> fault != LookupFault && PostBySlugOrId(db.posts, segment) == Some(r.value)
      ensures r.Err? ==> fault == LookupFault || PostBySlugOrId(db.posts, segment).None?
    {
      hide PostBySlugOrId, Asked;
      if fault == LookupFault { return Err(Broken); }
      LookupExactly(db.posts, segment);
      var found := PostBySlugOrId(db.posts, segment);
      r := if found.Some? then Ok(found.value) else Err(NotFound);
    }

    /** The first user whose lower-cased slug is the argument. No error is ever reported:
        an unknown slug and a lookup that fails both give no user. */
    method GetUserBySlug(slug: string, fault: Fault) returns (user: Option<User>)
      ensures user.Some? ==>
        exists i :: 0 <= i < |db.users| && FirstWithSlug(db.users, slug, i) && db.users[i] == user.value
      ensures user.None? <==>
        fault == LookupFault || forall i :: 0 <= i < |db.users| ==> Text.ToLower(db.users[i].slug) != slug
      ensures user.Some? ==> user == UserBySlug(db.users, slug)
    {
      if fault == LookupFault { return None; }
      user := UserBySlug(db.users, slug);
    }

    method CreatePost(p: Post, fault: Fault) returns (r: Result<Post, DbError>)
      modifies this`db
      ensures r.Ok? <==> !fault.WriteFault?
      ensures r.Ok? ==> r.value == p.(id := old(db).nextId) && db == InsertPost(old(db), p)
      ensures r.Err? ==> db == old(db)
    {
      if fault.WriteFault? { return Err(Broken); }
      r := Ok(p.(id := db.nextId));
      db := InsertPost(db, p);
    }

    method UpdatePost(p: Post, fault: Fault) returns (ok: bool)
      modifies this`db
      ensures ok <==> !fault.WriteFault?
      ensures db == if ok then old(db).(posts := ReplacePost(old(db).posts, p)) else old(db)
    {
      ok := !fault.WriteFault?;
      if ok {
        db := db.(posts := ReplacePost(db.posts, p));
      }
    }

    /** The user row and its two events are inserted one by one in a transaction. */
    method CreateUser(profile: User, fault: Fault) returns (r: Result<User, DbError>)
      modifies this`db
      ensures (db, r) == SignIn(old(db), profile, slugify, fault)
      ensures IsProfile(profile) && r.Ok? ==> SignedIn(old(db), profile, slugify, r.value, db)
    {
      hide SignedIn;
      if IsProfile(profile) { SignInExactly(db, profile, slugify, fault); }
      if fault == LookupFault { return Err(Broken); }
      var found := FirstUser(db.users, profile);
      if found.Some? {
        if fault == WriteFault(0) { return Err(Broken); }
        db := InsertPost(db, Event(Login, found.value.id));
        return Ok(found.value);
      }
      var tx := db;
      var user := StoredUser(profile, slugify);
      if fault == WriteFault(0) { return Err(Broken); }
      if exists i :: 0 <= i < |tx.users| && tx.users[i].email == user.email { return Err(UniqueViolation); }
      user := user.(id := tx.nextId);
      tx := tx.(users := tx.users + [user], nextId := tx.nextId + 1);
      if fault == WriteFault(1) { return Err(Broken); }
      tx := InsertPost(tx, Event(Register, user.id));
      if fault == WriteFault(2) { return Err(Broken); }
      tx := InsertPost(tx, Event(LinkDiscord, user.id));
      if fault == WriteFault(3) { return Err(Broken); }
      db := tx;
      r := Ok(user);
    }

    /** Rebuild the featuring links of a post from the mentions in its text: a commit adds
        one row per name, pointing to the first user of that name, and when nothing is
        refused, it comes to a commit exactly when every name is that of a user. */
    method CheckAndUpdatePost(post: Post, failing: Option<nat>) returns (o: Outcome)
      modifies this`db
      ensures EndsAs(old(db), post.id, Targets(post), failing, o, db)
      ensures var names := FeatExtract.Mentions(post.SafeTitle() + "\n\n" + post.SafeDescription());
        && (o == Committed ==> AllKnown(old(db).users, names) && Credits(old(db), post.id, names, db))
        && (failing.None? && AllKnown(old(db).users, names) ==> o == Committed)
        && (failing.None? && !AllKnown(old(db).users, names) ==> o == Panicked)
    {
      hide FeatExtract.FindAll, FeatExtract.Names, AllKnown, Credits, EndsAs;
      EndsByNames(db, post, failing);
      var body := post.SafeTitle() + "\n\n" + post.SafeDescription();
      var matches := FeatExtract.FindAll(body, 0);
      assert Targets(post) == TargetsOf(FeatExtract.Names(body, matches));
      o := RebuildLinks(post.id, body, matches, failing);
    }

    /** Statements 0 and 1 clear the two associations; for mention `n`, statement `2n + 2`
        looks the user up and statement `2n + 3` appends the link; the last one commits. */
    method RebuildLinks(post: int, body: string, matches: seq<FeatPattern.Hit>, failing: Option<nat>)
      returns (o: Outcome)
      modifies this`db
      ensures EndsAs(old(db), post, TargetsOf(FeatExtract.Names(body, matches)), failing, o, db)
    {
      hide Partial, EndsAs, UnlinkAll, ClearSource, ClearTarget, TargetsOf, UserBySlug, FirstWithSlug, FeaturingRow;
      hide FeatExtract.NameOf, FeatExtract.Names, Text.ToLower, Text.TrimSpace, PanicsAmong, Succeeds;
      ghost var ts := TargetsOf(FeatExtract.Names(body, matches));
      var tx := db.links;
      StopsEarly(db, post, ts, failing);
      if Refused(failing, 0) { return Failed; }
      tx := ClearSource(tx, post);
      if Refused(failing, 1) { return Failed; }
      tx := ClearTarget(tx, post);
      PartialStart(db, post, ts);
      ClearBoth(db.links, post);

      var n := 0;
      while n < |matches|
        invariant 0 <= n <= |matches| && db == old(db)
        invariant Partial(db, post, ts, n, tx) && !RefusedBefore(failing, 2 * n + 2)
      {
        var target := Text.ToLower(Text.TrimSpace(FeatExtract.NameOf(body, matches[n])));
        assert ts[n] == Target(FeatExtract.NameOf(body, matches[n]));
        var user := GetUserBySlug(target, if Refused(failing, 2 * n + 2) then LookupFault else NoFault);
        StopsAt(db, post, ts, failing, n, tx);
        if user.None? { return Panicked; }
        if Refused(failing, 2 * n + 3) { return Failed; }
        PartialStep(db, post, ts, n, tx);
        tx := tx + [FeaturingRow(db.nextId + n, post, user.value.id)];
        n := n + 1;
      }
      Commits(db, post, ts, failing, tx);
      if Refused(failing, 2 * n + 2) { return Failed; }
      db := db.(links := tx, nextId := db.nextId + n);
      o := Committed;
    }
  }

  // ---- the transaction, statement by statement --------------------------------

  /** The first `n` mentions resolved and are in the transaction's table. */
  ghost predicate Partial(db: Database, post: int, ts: seq<string>, n: nat, tx: seq<Relationship>) {
    && n <= |ts| && Resolvable(db.users, ts[..n])
    && tx == UnlinkAll(db.links, post) + FeaturingRows(db.nextId, post, Credited(db.users, ts[..n]))
  }

  lemma {:induction false} ClearBoth(rs: seq<Relationship>, post: int)
    ensures ClearTarget(ClearSource(rs, post), post) == UnlinkAll(rs, post)
  {
  }

  lemma {:induction false} PartialStart(db: Database, post: int, ts: seq<string>)
    ensures Partial(db, post, ts, 0, UnlinkAll(db.links, post))
  {
    assert ts[..0] == [];
  }

  lemma {:induction false} PartialStep(db: Database, post: int, ts: seq<string>, n: nat, tx: seq<Relationship>)
    requires n < |ts| && Partial(db, post, ts, n, tx) && UserBySlug(db.users, ts[n]).Some?
    ensures Partial(db, post, ts, n + 1, tx + [FeaturingRow(db.nextId + n, post, UserBySlug(db.users, ts[n]).value.id)])
  {
    hide UnlinkAll, FeaturingRows, Credited, Resolvable, UserBySlug, FeaturingRow, FirstWithSlug, Text.ToLower;
    CreditOneMore(db.users, ts, n);
    var c, u := Credited(db.users, ts[..n]), UserBySlug(db.users, ts[n]).value.id;
    AppendRow(db.nextId, post, c, u);
    Regroup(UnlinkAll(db.links, post), FeaturingRows(db.nextId, post, c), FeaturingRow(db.nextId + n, post, u));
  }

  lemma {:induction false} Regroup(a: seq<Relationship>, b: seq<Relationship>, r: Relationship)
    ensures a + b + [r] == a + (b + [r])
  {
  }

  lemma {:induction false} StopsEarly(db: Database, post: int, ts: seq<string>, failing: Option<nat>)
    ensures RefusedBefore(failing, 2) ==> EndsAs(db, post, ts, failing, Failed, db)
  {
  }

  lemma {:induction false} StopsAt(
    db: Database, post: int, ts: seq<string>, failing: Option<nat>, n: nat, tx: seq<Relationship>)
    requires n < |ts| && Partial(db, post, ts, n, tx) && !RefusedBefore(failing, 2 * n + 2)
    ensures UserBySlug(db.users, ts[n]).None? || Refused(failing, 2 * n + 2) ==>
      EndsAs(db, post, ts, failing, Panicked, db)
    ensures UserBySlug(db.users, ts[n]).Some? && Refused(failing, 2 * n + 3) ==>
      EndsAs(db, post, ts, failing, Failed, db)
  {
    hide UnlinkAll, FeaturingRows, UserBySlug, Rebuilt, Credited, Resolvable, Succeeds, PanicsAt;
    if UserBySlug(db.users, ts[n]).None? || Refused(failing, 2 * n + 2) {
      NoUser(db.users, ts, failing, n);
    } else if Refused(failing, 2 * n + 3) {
      NoAppend(db.users, ts, failing, n);
    }
  }

  lemma {:induction false} NoUser(us: seq<User>, ts: seq<string>, failing: Option<nat>, n: nat)
    requires n < |ts| && Resolvable(us, ts[..n]) && !RefusedBefore(failing, 2 * n + 2)
    requires UserBySlug(us, ts[n]).None? || Refused(failing, 2 * n + 2)
    ensures PanicsAmong(us, ts, failing) && !Succeeds(us, ts, failing)
  {
    hide UserBySlug;
    assert PanicsAt(us, ts, failing, n);
  }

  lemma {:induction false} NoAppend(us: seq<User>, ts: seq<string>, failing: Option<nat>, n: nat)
    requires n < |ts| && Resolvable(us, ts[..n]) && Refused(failing, 2 * n + 3) && UserBySlug(us, ts[n]).Some?
    ensures !PanicsAmong(us, ts, failing) && !Succeeds(us, ts, failing)
  {
    hide UserBySlug;
    forall m | 0 <= m < |ts| ensures !PanicsAt(us, ts, failing, m) {
      if m < n { assert ts[..n][m] == ts[m]; }
    }
  }

  lemma {:induction false} Commits(
    db: Database, post: int, ts: seq<string>, failing: Option<nat>, tx: seq<Relationship>)
    requires Partial(db, post, ts, |ts|, tx) && !RefusedBefore(failing, 2 * |ts| + 2)
    ensures Refused(failing, 2 * |ts| + 2) ==> EndsAs(db, post, ts, failing, Failed, db)
    ensures !Refused(failing, 2 * |ts| + 2) ==>
      EndsAs(db, post, ts, failing, Committed, db.(links := tx, nextId := db.nextId + |ts|))
  {
    hide UnlinkAll, FeaturingRows, UserBySlug, Credited, Resolvable, Succeeds, PanicsAmong, Refused;
    assert ts[..|ts|] == ts;
    AllLookedUp(db.users, ts, failing);
  }

  lemma {:induction false} AllLookedUp(us: seq<User>, ts: seq<string>, failing: Option<nat>)
    requires Resolvable(us, ts) && !RefusedBefore(failing, 2 * |ts| + 2)
    ensures !PanicsAmong(us, ts, failing) && (Succeeds(us, ts, failing) <==> !Refused(failing, 2 * |ts| + 2))
  {
    hide UserBySlug;
    forall n | 0 <= n < |ts| ensures !PanicsAt(us, ts, failing, n) {
      assert UserBySlug(us, ts[n]).Some?;
    }
  }

  /** How a rebuild ends, in terms of the names in the text. */
  lemma {:induction false} EndsByNames(db: Database, post: Post, failing: Option<nat>)
    ensures var names := FeatExtract.Mentions(post.SafeTitle() + "\n\n" + post.SafeDescription());
      forall o, after :: EndsAs(db, post.id, Targets(post), failing, o, after) ==>
        && (o == Committed ==> AllKnown(db.users, names) && Credits(db, post.id, names, after))
        && (failing.None? && AllKnown(db.users, names) ==> o == Committed)
        && (failing.None? && !AllKnown(db.users, names) ==> o == Panicked)
  {
    hide FeatExtract.Mentions, TargetsOf, UserBySlug, Credits, AllKnown, Rebuilt, Credited, PanicsAmong, Resolvable;
    var names := FeatExtract.Mentions(post.SafeTitle() + "\n\n" + post.SafeDescription());
    var ts := TargetsOf(names);
    assert Targets(post) == ts;
    ResolvableExactly(db.users, names);
    if AllKnown(db.users, names) {
      RebuiltCredits(db, post.id, names);
    } else if failing.None? {
      SomeUnresolved(db.users, ts);
    }
  }

  lemma {:induction false} FirstUnresolved(us: seq<User>, ts: seq<string>) returns (n: nat)
    requires !Resolvable(us, ts)
    ensures n < |ts| && UserBySlug(us, ts[n]).None? && forall m :: 0 <= m < n ==> UserBySlug(us, ts[m]).Some?
  {
    hide UserBySlug;
    n := 0;
    while UserBySlug(us, ts[n]).Some?
      invariant n < |ts| && forall m :: 0 <= m < n ==> UserBySlug(us, ts[m]).Some?
      decreases |ts| - n
    {
      n := n + 1;
    }
  }

  lemma {:induction false} SomeUnresolved(us: seq<User>, ts: seq<string>)
    requires !Resolvable(us, ts)
    ensures PanicsAmong(us, ts, None)
  {
    hide UserBySlug;
    var n := FirstUnresolved(us, ts);
    assert PanicsAt(us, ts, None, n);
  }

  /** Every mention resolves and no statement is refused. */
  predicate Succeeds(us: seq<User>, ts: seq<string>, failing: Option<nat>) {
    Resolvable(us, ts) && !RefusedBefore(failing, 2 * |ts| + 3)
  }

  /** Mention `n` is reached, and its lookup gives no user. */
  predicate PanicsAt(us: seq<User>, ts: seq<string>, failing: Option<nat>, n: nat) {
    && n < |ts| && Resolvable(us, ts[..n]) && !RefusedBefore(failing, 2 * n + 2)
    && (UserBySlug(us, ts[n]).None? || Refused(failing, 2 * n + 2))
  }

  predicate PanicsAmong(us: seq<User>, ts: seq<string>, failing: Option<nat>) {
    exists n :: 0 <= n < |ts| && PanicsAt(us, ts, failing, n)
  }

  /** The rebuild commits exactly when every mention resolves and no statement is
      refused; it panics at the first mention whose lookup gives no user; and unless it
      commits the database is what it was. */
  ghost predicate EndsAs(
    before: Database, post: int, ts: seq<string>, failing: Option<nat>, o: Outcome, after: Database)
  {
    && (o == Committed <==> Succeeds(before.users, ts, failing))
    && (o == Panicked <==> PanicsAmong(before.users, ts, failing))
    && (o == Committed ==> after == Rebuilt(before, post, Credited(before.users, ts)))
    && (o != Committed ==> after == before)
  }

  lemma {:induction false} CreditOneMore(us: seq<User>, ts: seq<string>, n: nat)
    requires n < |ts| && Resolvable(us, ts[..n]) && UserBySlug(us, ts[n]).Some?
    ensures Resolvable(us, ts[..n + 1])
    ensures Credited(us, ts[..n + 1]) == Credited(us, ts[..n]) + [UserBySlug(us, ts[n]).value.id]
  {
    hide UserBySlug, Credited;
    assert ts[..n + 1] == ts[..n] + [ts[n]];
    forall m | 0 <= m < n ensures ts[..n][m] == ts[m] && UserBySlug(us, ts[m]).Some? {
      assert UserBySlug(us, ts[..n][m]).Some?;
    }
  }

  lemma {:induction false} AppendRow(id: int, post: int, users: seq<int>, user: int)
    ensures FeaturingRows(id, post, users + [user]) ==
      FeaturingRows(id, post, users) + [FeaturingRow(id + |users|, post, user)]
  {
  }

  // ---- an unknown mention -----------------------------------------------------------

  lemma {:induction false} GhostMention()
    ensures FeatExtract.Mentions("feat @ghost\n\n") == ["ghost"]
  {
    hide FeatTexts.IsIntro, FeatExtract.Mentions;
    FeatTexts.PlainIntro();
    var c := FeatTexts.Credit("feat @", "ghost", "\n\n");
    assert FeatTexts.Wellformed([c]) by { assert FeatTexts.IsName("ghost") && FeatTexts.IsSep("\n\n", true); }
    FeatTexts.PrintThenRead([c]);
    assert [c][1..] == [] && FeatTexts.Print([]) == "";
    assert FeatTexts.Print([c]) == "feat @ghost\n\n";
    assert FeatTexts.CreditNames([c]) == ["ghost"];
  }

  /** The title "feat @ghost" makes the rebuild panic, although no statement is refused,
      on every store without a user of that name. */
  lemma {:induction false} GhostPanics(us: seq<User>, p: Post)
    requires p.title == "feat @ghost" && p.SafeDescription() == "" && UserBySlug(us, "ghost").None?
    ensures Targets(p) == ["ghost"] && PanicsAmong(us, Targets(p), None)
  {
    hide FeatExtract.Mentions, UserBySlug, Target;
    GhostMention();
    GhostTarget();
    assert SearchedText(p) == "feat @ghost\n\n";
    assert Targets(p) == ["ghost"];
    hide SearchedText, TargetsOf;
    assert PanicsAt(us, Targets(p), None, 0);
  }

  lemma {:induction false} GhostTarget()
    ensures Target("ghost") == "ghost"
  {
    Text.TrimmedStays("ghost");
  }

  /** Letter case is no obstacle: "feat @Alice" credits the user alice. */
  lemma {:induction false} CapitalIsCredited(us: seq<User>, p: Post)
    requires p.title == "feat @Alice" && p.SafeDescription() == ""
    requires |us| == 1 && us[0].slug == "alice"
    ensures Targets(p) == ["alice"] && Succeeds(us, Targets(p), None)
  {
    hide FeatExtract.Mentions, Target, UserBySlug;
    CapitalMention();
    CapitalTarget();
    assert SearchedText(p) == "feat @Alice\n\n";
    hide SearchedText;
    assert Targets(p) == ["alice"];
  }

  lemma {:induction false} CapitalTarget()
    ensures Target("Alice") == "alice" && Text.ToLower("alice") == "alice"
  {
    Text.TrimmedStays("Alice");
    assert forall i :: 0 <= i < 5 ==> Text.ToLower("Alice")[i] == Text.LowerChar("Alice"[i]);
  }

  lemma {:induction false} CapitalMention()
    ensures FeatExtract.Mentions("feat @Alice\n\n") == ["Alice"]
  {
    hide FeatTexts.IsIntro, FeatExtract.Mentions;
    FeatTexts.PlainIntro();
    var c := FeatTexts.Credit("feat @", "Alice", "\n\n");
    assert FeatTexts.Wellformed([c]) by { assert FeatTexts.IsName("Alice") && FeatTexts.IsSep("\n\n", true); }
    FeatTexts.PrintThenRead([c]);
    FeatTexts.PrintOne(c);
    assert FeatTexts.CreditNames([c]) == ["Alice"];
    assert "feat @" + "Alice" + "\n\n" == "feat @Alice\n\n";
  }
}
