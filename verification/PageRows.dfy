/** Exactly when the pages store a row, and what stands in it, column by column. */
module PageRows {
  import opened Prelude
  import opened Schema
  import opened Accounts
  import opened Pages
  import opened SiteRuns
  import Decimal
  import Naming
  import Text

  // ---- uploads ------------------------------------------------------------------

  predicate IsUploadRow(p: Post, id: int, user: int, up: Upload) {
    && up.cid.Some?
    && p == Post(id, Track, Public, user, "", "", "", "", up.now, Some(0), Some(""), IPFS, p.providerTitle, "",
                 "", "", 0, up.cid.value, up.mime, up.size, p.extension, up.filename, 0, 0)
    && (if Text.Free(up.filename, '.') then p.providerTitle == up.filename && p.extension == "blob"
        else Text.Free(p.extension, '.') && p.providerTitle + "." + p.extension == up.filename)
  }

  /** Some post has the cid; every post does when there is no cid. */
  predicate CidTaken(ps: seq<Post>, cid: string) {
    exists i :: 0 <= i < |ps| && (cid == "" || ps[i].cid == cid)
  }

  /** An upload of a user is stored exactly when `ipfs` answered, the insert is accepted,
      and the cid was not found taken; it is one row with these columns. */
  lemma {:induction false} UploadStoresExactly(db: Database, user: int, up: Upload, fault: Fault)
    requires Inv(db)
    ensures var after := UploadStep(db, user, up, fault);
      if HasUser(db.users, user) && up.cid.Some? && !fault.WriteFault?
         && (fault == LookupFault || !CidTaken(db.posts, up.cid.value))
      then after == db.(posts := after.posts, nextId := db.nextId + 1) && |after.posts| == |db.posts| + 1
        && db.posts <= after.posts && IsUploadRow(after.posts[|db.posts|], db.nextId, user, up)
      else after == db
  {
    UserFound(db.users, user);
    if up.cid.Some? {
      CidFound(db, up.cid.value);
      Naming.SplitNameRebuilds(up.filename);
    }
    hide Inv, HasUser, CidTaken, FirstPost, UserById, Naming.SplitName, Text.Free;
    if UploadStep(db, user, up, fault) != db {
      assert UploadStep(db, user, up, fault).posts == db.posts + [UploadedPost(user, up).(id := db.nextId)];
    }
  }

  lemma {:induction false} UserFound(us: seq<User>, id: int)
    ensures UserById(us, id).Some? <==> HasUser(us, id)
  {
    if UserById(us, id).Some? { FoundHasUser(us, id); }
  }

  lemma {:induction false} CidFound(db: Database, cid: string)
    requires Inv(db)
    ensures var p := FirstPost(db.posts, BLANK.(cid := cid)); p.Some? && p.value.id != 0 <==> CidTaken(db.posts, cid)
  {
    FoundHasId(db, BLANK.(cid := cid));
    hide FirstPost, Inv;
    forall p ensures PostMatches(BLANK.(cid := cid), p) <==> cid == "" || p.cid == cid { }
  }

  // ---- links --------------------------------------------------------------------

  predicate IsLinkRow(p: Post, id: int, user: int, scid: nat, l: Link) {
    && l.info.Some? && var t := l.info.value;
    && p == Post(id, Track, if l.draft then Draft else Public, user, "", "", "", "",
                 if t.createdAt.Some? then t.createdAt.value else l.now, Some(0), Some(""), SoundCloud, t.title, t.description,
                 "", t.genre + ", " + Text.Join(Text.Split(t.tagList, ' '), ", "), scid, "", "", 0, "", "", 0, 0)
  }

  /** Some post has the number; every post does when it is zero. */
  predicate ScidTaken(ps: seq<Post>, scid: nat) {
    exists i :: 0 <= i < |ps| && (scid == 0 || ps[i].scid == scid)
  }

  /** A link of a user is stored exactly when it is one to SoundCloud with a number that
      reads and was not found taken, SoundCloud answered, and the insert is accepted. */
  lemma {:induction false} LinkStoresExactly(db: Database, user: int, l: Link, fault: Fault)
    requires Inv(db)
    ensures var after := LinkStep(db, user, l, fault);
      if HasUser(db.users, user) && l.host == "soundcloud.com" && l.idText.Some?
         && Decimal.ParseUint(l.idText.value).Some? && l.info.Some? && !fault.WriteFault?
         && (fault == LookupFault || !ScidTaken(db.posts, Decimal.ParseUint(l.idText.value).value))
      then after == db.(posts := after.posts, nextId := db.nextId + 1) && |after.posts| == |db.posts| + 1
        && db.posts <= after.posts
        && IsLinkRow(after.posts[|db.posts|], db.nextId, user, Decimal.ParseUint(l.idText.value).value, l)
      else after == db
  {
    UserFound(db.users, user);
    if LinkId(l).Some? {
      ScidFound(db, LinkId(l).value);
    }
    if l.info.Some? { TagsSpelled(l.info.value.genre, l.info.value.tagList); }
    hide Inv, HasUser, ScidTaken, FirstPost, UserById, Decimal.ParseUint, Text.Join, Text.Split, Naming.SoundCloudTags;
    if LinkStep(db, user, l, fault) != db {
      assert LinkStep(db, user, l, fault).posts == db.posts + [LinkedPost(user, LinkId(l).value, l).(id := db.nextId)];
    }
  }

  lemma {:induction false} ScidFound(db: Database, scid: nat)
    requires Inv(db)
    ensures var p := FirstPost(db.posts, BLANK.(scid := scid)); p.Some? && p.value.id != 0 <==> ScidTaken(db.posts, scid)
  {
    FoundHasId(db, BLANK.(scid := scid));
    hide FirstPost, Inv;
    forall p ensures PostMatches(BLANK.(scid := scid), p) <==> scid == 0 || p.scid == scid { }
  }

  lemma {:induction false} TagsSpelled(genre: string, tagList: string)
    ensures Naming.SoundCloudTags(genre, tagList) == genre + ", " + Text.Join(Text.Split(tagList, ' '), ", ")
  {
    var ps := [genre] + Text.Split(tagList, ' ');
    assert ps[1..] == Text.Split(tagList, ' ');
  }

  // ---- comments and views --------------------------------------------------------

  predicate IsCommentRow(p: Post, id: int, user: int, body: string, track: int) {
    p == Post(id, Comment, Public, user, "", "", body, "", 0, Some(0), Some(""),
              UnknownProvider, "", "", "", "", 0, "", "", 0, "", "", 0, track)
  }

  /** A visit of a track stores one row unless the write is refused: the trimmed comment
      of a user who says something, and otherwise a view, of nobody in particular for
      an anonymous visitor; no view is recorded when the comments cannot be loaded. */
  lemma {:induction false} VisitStoresExactly(
    db: Database, user: int, segment: string, comment: Option<string>, fault: Fault, p: Post)
    requires PostBySlugOrId(db.posts, segment) == Some(p) && fault != LookupFault && !HasUser(db.users, 0)
    ensures var after := VisitStep(db, user, segment, comment, fault);
      var says := comment.Some? && HasUser(db.users, user) && !Text.AllSpace(comment.value);
      if fault.WriteFault? || (!says && fault == QueryFault) then after == db
      else
        && after == db.(posts := after.posts, nextId := db.nextId + 1)
        && |after.posts| == |db.posts| + 1 && db.posts <= after.posts
        && var row := after.posts[|db.posts|];
           if says then IsCommentRow(row, db.nextId, user, Text.TrimSpace(comment.value), p.id)
           else IsEvent(row, db.nextId, ViewPost, if HasUser(db.users, user) then user else 0, 0, p.id)
  {
    UserFound(db.users, user);
    if comment.Some? { Text.TrimsToNothing(comment.value); }
    hide HasUser, UserById, PostBySlugOrId, Text.TrimSpace, Text.AllSpace;
    assert user == 0 ==> !HasUser(db.users, user);
  }

  /** A visit of an unknown track, and one whose lookup fails, stores nothing. */
  lemma {:induction false} UnknownTrackStoresNothing(
    db: Database, user: int, segment: string, comment: Option<string>, fault: Fault)
    requires fault == LookupFault || forall i :: 0 <= i < |db.posts| ==> !Asked(segment, db.posts[i])
    ensures VisitStep(db, user, segment, comment, fault) == db
  {
    hide Asked, PostBySlugOrId;
    LookupExactly(db.posts, segment);
  }

  /** A visit of a profile stores one view of the first user with the slug. */
  lemma {:induction false} ProfileViewStored(db: Database, user: int, slug: string, fault: Fault, i: nat)
    requires i < |db.users| && FirstWithSlug(db.users, slug, i)
    ensures var after := ProfileStep(db, user, slug, fault);
      if fault == LookupFault || fault.WriteFault? then after == db
      else
        && after == db.(posts := after.posts, nextId := db.nextId + 1)
        && |after.posts| == |db.posts| + 1 && db.posts <= after.posts
        && IsEvent(after.posts[|db.posts|], db.nextId, ViewProfile,
                   if HasUser(db.users, user) then user else 0, db.users[i].id, 0)
  {
    UserFound(db.users, user);
    FirstSlugFound(db.users, slug, i);
    hide HasUser, UserById, UserBySlug, FirstWithSlug;
  }

  lemma {:induction false} OneFirst(us: seq<User>, slug: string, i: nat, k: nat)
    requires i < |us| && FirstWithSlug(us, slug, i) && k < |us| && FirstWithSlug(us, slug, k)
    ensures i == k && Text.ToLower(us[i].slug) == slug
  {
  }

  lemma {:induction false} FirstSlugFound(us: seq<User>, slug: string, i: nat)
    requires i < |us| && FirstWithSlug(us, slug, i)
    ensures UserBySlug(us, slug) == Some(us[i])
  {
    hide UserBySlug, FirstWithSlug;
    assert UserBySlug(us, slug).Some? by { OneFirst(us, slug, i, i); }
    var k :| 0 <= k < |us| && FirstWithSlug(us, slug, k) && us[k] == UserBySlug(us, slug).value;
    OneFirst(us, slug, i, k);
  }

  /** The comments shown under a track: the public comments that target it. */
  lemma {:induction false} CommentsListed(ps: seq<Post>, track: int, p: Post)
    requires track != 0
    ensures p in CommentsOn(ps, track) <==>
      p in ps && p.kind == Comment && p.targetPostId == track && p.visibility == Public
    decreases |ps|
  {
    if ps != [] {
      var n := |ps| - 1;
      CommentsListed(ps[..n], track, p);
      assert ps == ps[..n] + [ps[n]];
    }
  }
}
