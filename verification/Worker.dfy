/** One pass of the processing worker over the store. */
module Worker {
  import opened Prelude
  import opened Schema
  import opened Migrations
  import opened Store

  class ProcessingWorker {
    const store: Store
    var migrations: seq<Tx -> Migration>

    constructor (store: Store)
      ensures this.store == store && migrations == []
    {
      this.store := store;
      migrations := [];
    }

    /** From then on a pass turns a genre into missing tags, and a SoundCloud title into a
        missing provider title, on every track whose UPDATEs are accepted. */
    method SetupMigrations()
      modifies this
      ensures migrations == SHIPPED
      ensures forall p, tx :: Accepts(tx) ==> Migrate(p, Under(migrations, tx), 0) == Tidied(p).(version := Some(2))
    {
      migrations := [GenreToTags, ProviderTitle];
      forall p, tx | Accepts(tx)
        ensures Migrate(p, Under(migrations, tx), 0) == Tidied(p).(version := Some(2))
      {
        ShippedTidies(p, tx);
      }
    }

    /** All migrations from the first on, until one fails. */
    method RunMigrations(track: Post, tx: Tx) returns (entry: Post)
      ensures entry == Migrate(track, Under(migrations, tx), 0)
    {
      ghost var ms := Under(migrations, tx);
      entry := track;
      var k := 0;
      var version := 1;
      while k < |migrations|
        invariant k <= |migrations| && version == k + 1
        invariant Migrate(entry, ms, k) == Migrate(track, ms, 0)
      {
        assert ms[k] == migrations[k](tx);
        var step := migrations[k](tx)(entry);
        if step.error.Some? {
          return step.post.(error := step.error);
        }
        entry := step.post.(version := Some(version));
        version := version + 1;
        k := k + 1;
      }
    }

    /** Every fetched track is migrated from the first migration on and saved; saving
        track `j` is statement `j` of one transaction, and the last one commits. A refused
        UPDATE of a migration does not end the transaction: it is `tx` that answers it. */
    method ProcessingLoop(fetchFails: bool, tx: Tx, failing: Option<nat>) returns (ok: bool)
      requires WellBehaved(Under(migrations, tx))
      requires AscendingPosts(store.db.posts, store.db.nextId)
      modifies store`db
      ensures ok <==> !fetchFails && !RefusedBefore(failing, |Selected(old(store.db).posts, |migrations|)| + 1)
      ensures ok ==> store.db == old(store.db).(posts := ProcessedAll(old(store.db).posts, Under(migrations, tx)))
      ensures !ok ==> store.db == old(store.db)
    {
      hide Partly, Migrate;
      if fetchFails { return false; }
      ghost var ms := Under(migrations, tx);
      var posts := store.db.posts;
      var outdated := Selected(posts, |migrations|);
      var table := posts;
      var j := 0;
      NothingSaved(posts, ms);
      while j < |outdated|
        invariant j <= |outdated| && store.db == old(store.db)
        invariant !RefusedBefore(failing, j)
        invariant Partly(posts, ms, outdated[..j], table)
      {
        var entry := RunMigrations(outdated[j], tx);
        if Refused(failing, j) { return false; }
        SaveOne(posts, ms, outdated, j, table);
        table := ReplacePost(table, Saved(entry));
        j := j + 1;
      }
      assert outdated[..j] == outdated;
      if Refused(failing, j) { return false; }
      AllSaved(posts, ms, table);
      store.db := store.db.(posts := table);
      ok := true;
    }
  }

  /** The transaction's table when exactly the rows of `done` have been saved. */
  ghost predicate Partly(posts: seq<Post>, ms: seq<Migration>, done: seq<Post>, tx: seq<Post>) {
    && |tx| == |posts|
    && forall i :: 0 <= i < |posts| ==>
         tx[i].id == posts[i].id && tx[i] == if posts[i] in done then Processed(posts[i], ms) else posts[i]
  }

  lemma {:induction false} NothingSaved(posts: seq<Post>, ms: seq<Migration>)
    ensures Partly(posts, ms, [], posts)
  {
  }

  lemma {:induction false} AllSaved(posts: seq<Post>, ms: seq<Migration>, tx: seq<Post>)
    requires Partly(posts, ms, Selected(posts, |ms|), tx)
    ensures tx == ProcessedAll(posts, ms)
  {
    hide Outdated, Migrate;
    forall i | 0 <= i < |posts| ensures tx[i] == Processed(posts[i], ms) {
      assert posts[i] in Selected(posts, |ms|) <==> Outdated(posts[i], |ms|);
    }
  }

  lemma {:induction false} SaveOne(posts: seq<Post>, ms: seq<Migration>, outdated: seq<Post>, j: nat, tx: seq<Post>)
    requires WellBehaved(ms) && outdated == Selected(posts, |ms|) && j < |outdated|
    requires exists bound :: AscendingPosts(posts, bound)
    requires Partly(posts, ms, outdated[..j], tx)
    ensures Partly(posts, ms, outdated[..j + 1], ReplacePost(tx, Saved(Migrate(outdated[j], ms, 0))))
  {
    var p := outdated[j];
    assert p in outdated;
    MigrateKeepsId(p, ms, 0);
    var q := Saved(Migrate(p, ms, 0));
    assert q == Processed(p, ms) && q.id == p.id;
    assert forall i :: 0 <= i < |posts| && posts[i].id == p.id ==> posts[i] == p;
    assert outdated[..j + 1] == outdated[..j] + [p];
    SaveRow(posts, ms, outdated[..j], p, q, tx);
  }

  lemma {:induction false} SaveRow(
    posts: seq<Post>, ms: seq<Migration>, done: seq<Post>, p: Post, q: Post, tx: seq<Post>)
    requires Partly(posts, ms, done, tx)
    requires q == Processed(p, ms) && q.id == p.id
    requires forall i :: 0 <= i < |posts| && posts[i].id == p.id ==> posts[i] == p
    ensures Partly(posts, ms, done + [p], ReplacePost(tx, q))
  {
    hide Processed;
  }

  lemma {:induction false} MigrateKeepsId(p: Post, ms: seq<Migration>, k: nat)
    requires k <= |ms| && WellBehaved(ms)
    ensures Migrate(p, ms, k).id == p.id
    decreases |ms| - k
  {
    if k < |ms| {
      assert SameRow(p, ms[k](p).post);
      if ms[k](p).error.None? {
        MigrateKeepsId(ms[k](p).post.(version := Some(k + 1)), ms, k + 1);
      }
    }
  }
}
