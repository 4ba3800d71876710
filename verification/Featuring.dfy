/** What rebuilding the featuring links of a post means for the relationship table. */
module Featuring {
  import opened Prelude
  import opened Schema
  import Text
  import FeatExtract
  import FeatJoin

  /** The text that is searched for mentions. */
  function SearchedText(p: Post): string {
    FeatJoin.Body(p.SafeTitle(), p.SafeDescription())
  }

  function Target(name: string): string {
    Text.ToLower(Text.TrimSpace(name))
  }

  function TargetsOf(names: seq<string>): (ts: seq<string>)
    ensures |ts| == |names| && forall n :: 0 <= n < |ts| ==> ts[n] == Target(names[n])
  {
    if names == [] then [] else [Target(names[0])] + TargetsOf(names[1..])
  }

  function Targets(p: Post): seq<string> {
    TargetsOf(FeatExtract.Mentions(SearchedText(p)))
  }

  lemma {:induction false} TargetsOfConcat(a: seq<string>, b: seq<string>)
    ensures TargetsOf(a + b) == TargetsOf(a) + TargetsOf(b)
  {
  }

  /** Unless the title ends in an open keyword that the description completes, the
      targets are those of the title followed by those of the description. */
  lemma {:induction false} TargetsByPart(p: Post)
    requires !FeatJoin.Carries(p.SafeTitle(), p.SafeDescription(), 0)
    ensures Targets(p) ==
      TargetsOf(FeatExtract.Mentions(p.SafeTitle())) + TargetsOf(FeatExtract.Mentions(p.SafeDescription()))
  {
    hide FeatExtract.Mentions, TargetsOf, FeatJoin.Carries;
    FeatJoin.JoinExact(p.SafeTitle(), p.SafeDescription());
    TargetsOfConcat(FeatExtract.Mentions(p.SafeTitle()), FeatExtract.Mentions(p.SafeDescription()));
  }

  predicate Resolvable(us: seq<User>, ts: seq<string>) {
    forall n :: 0 <= n < |ts| ==> UserBySlug(us, ts[n]).Some?
  }

  /** The users behind the mentions, in order and with repetitions. */
  function Credited(us: seq<User>, ts: seq<string>): (ids: seq<int>)
    requires Resolvable(us, ts)
    ensures |ids| == |ts| && forall n :: 0 <= n < |ts| ==> ids[n] == UserBySlug(us, ts[n]).value.id
  {
    if ts == [] then [] else [UserBySlug(us, ts[0]).value.id] + Credited(us, ts[1..])
  }

  /** Clearing an association sets the foreign key to NULL; the row stays. */
  function Unlink(r: Relationship, post: int): Relationship {
    r.(sourcePost := if r.sourcePost == Some(post) then None else r.sourcePost,
       targetPost := if r.targetPost == Some(post) then None else r.targetPost)
  }

  function UnlinkAll(rs: seq<Relationship>, post: int): (us: seq<Relationship>)
    ensures |us| == |rs| && forall i :: 0 <= i < |rs| ==> us[i] == Unlink(rs[i], post)
  {
    if rs == [] then [] else [Unlink(rs[0], post)] + UnlinkAll(rs[1..], post)
  }

  function ClearSource(rs: seq<Relationship>, post: int): (us: seq<Relationship>)
    ensures |us| == |rs|
    ensures forall i :: 0 <= i < |rs| ==>
      us[i] == if rs[i].sourcePost == Some(post) then rs[i].(sourcePost := None) else rs[i]
  {
    if rs == [] then []
    else [if rs[0].sourcePost == Some(post) then rs[0].(sourcePost := None) else rs[0]] + ClearSource(rs[1..], post)
  }

  function ClearTarget(rs: seq<Relationship>, post: int): (us: seq<Relationship>)
    ensures |us| == |rs|
    ensures forall i :: 0 <= i < |rs| ==>
      us[i] == if rs[i].targetPost == Some(post) then rs[i].(targetPost := None) else rs[i]
  {
    if rs == [] then []
    else [if rs[0].targetPost == Some(post) then rs[0].(targetPost := None) else rs[0]] + ClearTarget(rs[1..], post)
  }

  function FeaturingRow(id: int, post: int, user: int): Relationship {
    Relationship(id, FeaturingUser, Some(post), None, None, Some(user))
  }

  function FeaturingRows(id: int, post: int, users: seq<int>): (rs: seq<Relationship>)
    ensures |rs| == |users|
    ensures forall n :: 0 <= n < |users| ==> rs[n] == FeaturingRow(id + n, post, users[n])
    decreases |users|
  {
    if users == [] then []
    else
      var t := FeaturingRows(id + 1, post, users[1..]);
      [FeaturingRow(id, post, users[0])] + t
  }

  function Rebuilt(db: Database, post: int, users: seq<int>): Database {
    db.(links := UnlinkAll(db.links, post) + FeaturingRows(db.nextId, post, users), nextId := db.nextId + |users|)
  }

  // ---- in terms of the names in the text ------------------------------------

  /** Somebody's slug is the name, spaces around it and letter case aside. */
  predicate Known(us: seq<User>, name: string) {
    exists i :: 0 <= i < |us| && Text.ToLower(us[i].slug) == Text.ToLower(Text.TrimSpace(name))
  }

  predicate AllKnown(us: seq<User>, names: seq<string>) {
    forall n :: 0 <= n < |names| ==> Known(us, names[n])
  }

  /** The targets resolve exactly when every name in the text is that of a user. */
  lemma {:induction false} ResolvableExactly(us: seq<User>, names: seq<string>)
    ensures Resolvable(us, TargetsOf(names)) <==> AllKnown(us, names)
  {
    hide Text.ToLower, Text.TrimSpace;
    var ts := TargetsOf(names);
    forall n | 0 <= n < |names| ensures UserBySlug(us, ts[n]).Some? <==> Known(us, names[n]) {
      assert ts[n] == Text.ToLower(Text.TrimSpace(names[n]));
    }
  }

  /** A featuring link from the post to the first user with that name. */
  predicate CreditRow(us: seq<User>, r: Relationship, post: int, name: string) {
    && r.kind == FeaturingUser && r.sourcePost == Some(post) && r.targetPost == None && r.sourceUser == None
    && exists i :: 0 <= i < |us| && r.targetUser == Some(us[i].id)
         && Text.ToLower(us[i].slug) == Text.ToLower(Text.TrimSpace(name))
         && forall j :: 0 <= j < i ==> Text.ToLower(us[j].slug) != Text.ToLower(Text.TrimSpace(name))
  }

  /** The new rows credit the names, one each and in order. */
  predicate Credits(before: Database, post: int, names: seq<string>, after: Database) {
    && |after.links| == |before.links| + |names|
    && forall n :: 0 <= n < |names| ==> CreditRow(before.users, after.links[|before.links| + n], post, names[n])
  }

  lemma {:induction false} RebuiltCredits(db: Database, post: int, names: seq<string>)
    requires AllKnown(db.users, names)
    ensures Resolvable(db.users, TargetsOf(names))
    ensures Credits(db, post, names, Rebuilt(db, post, Credited(db.users, TargetsOf(names))))
  {
    hide Text.ToLower, Text.TrimSpace, Known, UserBySlug;
    ResolvableExactly(db.users, names);
    var ts := TargetsOf(names);
    var after := Rebuilt(db, post, Credited(db.users, ts));
    forall n | 0 <= n < |names|
      ensures CreditRow(db.users, after.links[|db.links| + n], post, names[n])
    {
      var u := UserBySlug(db.users, ts[n]);
      assert ts[n] == Text.ToLower(Text.TrimSpace(names[n]));
      var i :| 0 <= i < |db.users| && FirstWithSlug(db.users, ts[n], i) && db.users[i] == u.value;
      assert after.links[|db.links| + n] == FeaturingRow(db.nextId + n, post, u.value.id);
    }
  }

  /** The text that is searched: what was typed in, and where nothing was, what the
      provider says; "noname" without any title. */
  lemma {:induction false} SearchedParts(p: Post)
    ensures p.title != "" && p.body != "" ==> SearchedText(p) == p.title + "\n\n" + p.body
    ensures p.title != "" && p.body == "" ==> SearchedText(p) == p.title + "\n\n" + p.providerDescription
    ensures p.title == "" && p.providerTitle != "" && p.body != "" ==>
      SearchedText(p) == p.providerTitle + "\n\n" + p.body
    ensures p.title == p.providerTitle == p.body == "" ==>
      SearchedText(p) == "noname" + "\n\n" + p.providerDescription
  {
  }

  // ---- what the rebuilt table says ------------------------------------------

  /** The rows sourced at a post, in table order. */
  function SourcedAt(rs: seq<Relationship>, post: int): seq<Relationship> {
    if rs == [] then []
    else (if rs[0].sourcePost == Some(post) then [rs[0]] else []) + SourcedAt(rs[1..], post)
  }

  lemma {:induction false} SourcedAtConcat(a: seq<Relationship>, b: seq<Relationship>, post: int)
    ensures SourcedAt(a + b, post) == SourcedAt(a, post) + SourcedAt(b, post)
    decreases |a|
  {
    if a == [] {
      assert a + b == b;
    } else {
      var h := if a[0].sourcePost == Some(post) then [a[0]] else [];
      assert (a + b)[1..] == a[1..] + b && (a + b)[0] == a[0];
      SourcedAtConcat(a[1..], b, post);
      assert SourcedAt(a + b, post) == h + SourcedAt(a[1..] + b, post);
      assert h + (SourcedAt(a[1..], post) + SourcedAt(b, post)) == (h + SourcedAt(a[1..], post)) + SourcedAt(b, post);
    }
  }

  lemma {:induction false} SourcedAtAll(rs: seq<Relationship>, post: int)
    ensures (forall i :: 0 <= i < |rs| ==> rs[i].sourcePost == Some(post)) ==> SourcedAt(rs, post) == rs
    ensures (forall i :: 0 <= i < |rs| ==> rs[i].sourcePost != Some(post)) ==> SourcedAt(rs, post) == []
    decreases |rs|
  {
    if rs != [] {
      SourcedAtAll(rs[1..], post);
      assert rs == [rs[0]] + rs[1..];
    }
  }

  /** After the rebuild the rows sourced at the post are one featuring row per
      mention, in order, and no row targets the post. */
  lemma {:induction false} RebuiltLinks(db: Database, post: int, users: seq<int>)
    ensures var rs := Rebuilt(db, post, users).links;
      && SourcedAt(rs, post) == FeaturingRows(db.nextId, post, users)
      && (forall i :: 0 <= i < |rs| ==> rs[i].targetPost != Some(post))
  {
    hide SourcedAt, Unlink, FeaturingRow;
    var a, b := UnlinkAll(db.links, post), FeaturingRows(db.nextId, post, users);
    SourcedAtConcat(a, b, post);
    AllUnlinked(db.links, post);
    AllFeaturing(db.nextId, post, users);
    forall i | 0 <= i < |a + b| ensures (a + b)[i].targetPost != Some(post) {
      assert (a + b)[i] == if i < |a| then a[i] else b[i - |a|];
    }
  }

  lemma {:induction false} AllUnlinked(rs: seq<Relationship>, post: int)
    ensures SourcedAt(UnlinkAll(rs, post), post) == []
    ensures forall i :: 0 <= i < |rs| ==> UnlinkAll(rs, post)[i].targetPost != Some(post)
  {
    SourcedAtAll(UnlinkAll(rs, post), post);
  }

  lemma {:induction false} AllFeaturing(id: int, post: int, users: seq<int>)
    ensures SourcedAt(FeaturingRows(id, post, users), post) == FeaturingRows(id, post, users)
    ensures forall i :: 0 <= i < |users| ==> FeaturingRows(id, post, users)[i].targetPost == None
  {
    SourcedAtAll(FeaturingRows(id, post, users), post);
  }

  /** No row is lost, every old row keeps its place, and a row that neither starts
      nor ends at the post is untouched; the other tables are too. */
  lemma {:induction false} RebuiltFrame(db: Database, post: int, users: seq<int>)
    ensures var after := Rebuilt(db, post, users);
      && after.users == db.users && after.posts == db.posts
      && |after.links| == |db.links| + |users|
      && forall i :: 0 <= i < |db.links| ==>
           var r, q := db.links[i], after.links[i];
           && q.id == r.id && q.kind == r.kind && q.sourceUser == r.sourceUser && q.targetUser == r.targetUser
           && q.sourcePost == (if r.sourcePost == Some(post) then None else r.sourcePost)
           && q.targetPost == (if r.targetPost == Some(post) then None else r.targetPost)
           && (r.sourcePost != Some(post) && r.targetPost != Some(post) ==> q == r)
  {
  }

  /** A link up to its row identifier. */
  function Content(rs: seq<Relationship>): (cs: seq<Relationship>)
    ensures |cs| == |rs| && forall i :: 0 <= i < |rs| ==> cs[i] == rs[i].(id := 0)
  {
    if rs == [] then [] else [rs[0].(id := 0)] + Content(rs[1..])
  }

  /** Rebuilding again changes nothing but row identifiers, for this post and for
      every other. */
  lemma {:induction false} RebuildTwice(db: Database, post: int, users: seq<int>, other: int)
    ensures var once := Rebuilt(db, post, users);
      var twice := Rebuilt(once, post, users);
      Content(SourcedAt(twice.links, other)) == Content(SourcedAt(once.links, other))
  {
    var once := Rebuilt(db, post, users);
    var twice := Rebuilt(once, post, users);
    RebuiltLinks(db, post, users);
    RebuiltLinks(once, post, users);
    if other == post {
      var a, b := FeaturingRows(db.nextId, post, users), FeaturingRows(once.nextId, post, users);
      assert Content(a) == Content(b);
    } else {
      var added := FeaturingRows(once.nextId, post, users);
      SourcedAtConcat(UnlinkAll(once.links, post), added, other);
      SourcedAtAll(added, other);
      SourcedElsewhere(once.links, post, other);
      assert SourcedAt(twice.links, other) == SourcedAt(UnlinkAll(once.links, post), other);
    }
  }

  lemma {:induction false} SourcedElsewhere(rs: seq<Relationship>, post: int, other: int)
    requires post != other && forall i :: 0 <= i < |rs| ==> rs[i].targetPost != Some(post)
    ensures SourcedAt(UnlinkAll(rs, post), other) == SourcedAt(rs, other)
    decreases |rs|
  {
    if rs != [] {
      SourcedElsewhere(rs[1..], post, other);
      assert UnlinkAll(rs, post)[1..] == UnlinkAll(rs[1..], post);
    }
  }
}
