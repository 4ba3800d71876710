/** The versioned migration of tracks: what one pass of the worker does to the post
    table, and what the shipped migrations do to a track. */
module Migrations {
  import opened Prelude
  import opened Schema

  /** A migration leaves the row it produced and, when it fails, a message. */
  datatype Migrated = Migrated(post: Post, error: Option<string>)
  type Migration = Post -> Migrated

  /** A migration leaves the identity of the row and the worker's own columns alone. */
  predicate SameRow(p: Post, q: Post) {
    && q.id == p.id && q.kind == p.kind && q.version == p.version && q.error == p.error
    && q.authorId == p.authorId && q.scid == p.scid && q.cid == p.cid
    && q.targetPostId == p.targetPostId && q.targetUserId == p.targetUserId
  }

  ghost predicate WellBehaved(ms: seq<Migration>) {
    forall k, p :: 0 <= k < |ms| ==> SameRow(p, ms[k](p).post)
  }

  /** The selection of the worker: a NULL version is outdated whatever the count. */
  predicate Outdated(p: Post, n: nat) {
    && p.kind == Track
    && (p.error.None? || p.error.value == "")
    && (p.version.None? || p.version.value < n)
  }

  /** Run the migrations from number `k` on; stop at the first failure. */
  function Migrate(p: Post, ms: seq<Migration>, k: nat): Post
    requires k <= |ms|
    decreases |ms| - k
  {
    if k == |ms| then p
    else
      match ms[k](p)
      case Migrated(q, None) => Migrate(q.(version := Some(k + 1)), ms, k + 1)
      case Migrated(q, Some(message)) => q.(error := Some(message))
  }

  /** The worker saves plain values, so a NULL column comes back as zero. */
  function Saved(p: Post): Post {
    p.(version := if p.version.None? then Some(0) else p.version,
       error := if p.error.None? then Some("") else p.error)
  }

  function Processed(p: Post, ms: seq<Migration>): Post {
    if Outdated(p, |ms|) then Saved(Migrate(p, ms, 0)) else p
  }

  function ProcessedAll(ps: seq<Post>, ms: seq<Migration>): (qs: seq<Post>)
    ensures |qs| == |ps| && forall i :: 0 <= i < |ps| ==> qs[i] == Processed(ps[i], ms)
  {
    if ps == [] then [] else [Processed(ps[0], ms)] + ProcessedAll(ps[1..], ms)
  }

  /** The message of the first migration that fails, if any does. */
  function Failure(p: Post, ms: seq<Migration>, k: nat): Option<string>
    requires k <= |ms|
    decreases |ms| - k
  {
    if k == |ms| then None
    else
      match ms[k](p)
      case Migrated(q, None) => Failure(q.(version := Some(k + 1)), ms, k + 1)
      case Migrated(q, Some(message)) => Some(message)
  }

  /** How many migrations are behind when the run from `k` ends. */
  function Reached(p: Post, ms: seq<Migration>, k: nat): (r: nat)
    requires k <= |ms|
    ensures k <= r <= |ms|
    decreases |ms| - k
  {
    if k == |ms| then k
    else
      match ms[k](p)
      case Migrated(q, None) => Reached(q.(version := Some(k + 1)), ms, k + 1)
      case Migrated(_, Some(_)) => k
  }

  /** Messages of failing migrations are not empty. */
  ghost predicate Speaks(ms: seq<Migration>) {
    forall k, p :: 0 <= k < |ms| ==> ms[k](p).error != Some("")
  }

  predicate VersionInRange(p: Post, n: nat) {
    p.version.None? || 0 <= p.version.value <= n
  }

  lemma {:induction false} MigrateOutcome(p: Post, ms: seq<Migration>, k: nat)
    requires k <= |ms| && WellBehaved(ms) && Speaks(ms)
    requires 0 < k ==> p.version == Some(k)
    ensures var q, r, f := Migrate(p, ms, k), Reached(p, ms, k), Failure(p, ms, k);
      && q.version == (if r == k then p.version else Some(r))
      && q.error == (if f.None? then p.error else f)
      && SameRow(p.(version := q.version, error := q.error), q)
      && (f.None? <==> r == |ms|) && f != Some("")
    decreases |ms| - k
  {
    if k < |ms| {
      var step := ms[k](p);
      assert SameRow(p, step.post) && step.error != Some("");
      if step.error.None? {
        MigrateOutcome(step.post.(version := Some(k + 1)), ms, k + 1);
      }
    }
  }

  /** A selected track ends at the full version without an error when no migration
      fails, and otherwise below it with the message; it is not selected again. */
  lemma {:induction false} ProcessedSettles(p: Post, ms: seq<Migration>)
    requires WellBehaved(ms) && Speaks(ms) && VersionInRange(p, |ms|) && Outdated(p, |ms|)
    ensures var q := Processed(p, ms);
      && SameRow(p, q.(version := p.version, error := p.error)) && VersionInRange(q, |ms|)
      && !Outdated(q, |ms|)
      && (q.version == if Reached(p, ms, 0) > 0 then Some(Reached(p, ms, 0)) else Saved(p).version)
      && match Failure(p, ms, 0)
         case None => q.version == Some(|ms|) && q.error == Some("")
         case Some(m) => q.version.Some? && q.version.value < |ms| && q.error == Some(m) && m != ""
  {
    MigrateOutcome(p, ms, 0);
    assert Failure(p, ms, 0).Some? ==> |ms| > 0;
  }

  predicate UpToDate(p: Post, n: nat) {
    p.version == Some(n)
  }

  predicate HasFailed(p: Post) {
    p.error.Some? && p.error.value != ""
  }

  /** A committed pass empties the selection, touches no other row, leaves every track at
      the full version or with an error, and a second pass changes nothing. */
  lemma {:induction false} PassSettles(ps: seq<Post>, ms: seq<Migration>)
    requires WellBehaved(ms) && Speaks(ms)
    requires forall i :: 0 <= i < |ps| ==> VersionInRange(ps[i], |ms|)
    ensures var qs := ProcessedAll(ps, ms);
      && (forall i :: 0 <= i < |qs| ==> !Outdated(qs[i], |ms|) && VersionInRange(qs[i], |ms|))
      && (forall i :: 0 <= i < |qs| && !Outdated(ps[i], |ms|) ==> qs[i] == ps[i])
      && (forall i :: 0 <= i < |qs| && ps[i].kind != Track ==> qs[i] == ps[i])
      && (forall i :: 0 <= i < |qs| && qs[i].kind == Track ==> UpToDate(qs[i], |ms|) || HasFailed(qs[i]))
      && ProcessedAll(qs, ms) == qs
  {
    var qs := ProcessedAll(ps, ms);
    forall i | 0 <= i < |qs|
      ensures !Outdated(qs[i], |ms|) && VersionInRange(qs[i], |ms|)
      ensures qs[i].kind == Track ==> UpToDate(qs[i], |ms|) || HasFailed(qs[i])
    {
      if Outdated(ps[i], |ms|) {
        ProcessedSettles(ps[i], ms);
      }
    }
  }

  // ---- when the version goes down ------------------------------------------------

  /** The row handed to migration `k` when all migrations before it succeed. */
  function Row(p: Post, ms: seq<Migration>, k: nat): Post
    requires k <= |ms|
  {
    if k == 0 then p else ms[k - 1](Row(p, ms, k - 1)).post.(version := Some(k))
  }

  predicate Succeeds(p: Post, ms: seq<Migration>, k: nat)
    requires k < |ms|
  {
    ms[k](Row(p, ms, k)).error.None?
  }

  /** Migration `j` fails on its row, and those before it succeed on theirs. */
  predicate FailsFirst(p: Post, ms: seq<Migration>, j: nat) {
    j < |ms| && !Succeeds(p, ms, j) && forall i :: 0 <= i < j ==> Succeeds(p, ms, i)
  }

  lemma {:induction false} ReachedFrom(p: Post, ms: seq<Migration>, k: nat)
    requires k <= |ms| && forall i :: 0 <= i < k ==> Succeeds(p, ms, i)
    ensures Reached(p, ms, 0) == Reached(Row(p, ms, k), ms, k)
  {
    if k > 0 {
      ReachedFrom(p, ms, k - 1);
      assert Succeeds(p, ms, k - 1);
    }
  }

  lemma {:induction false} SucceedsBelow(p: Post, ms: seq<Migration>, k: nat)
    requires k <= Reached(p, ms, 0)
    ensures forall i :: 0 <= i < k ==> Succeeds(p, ms, i)
  {
    if k > 0 {
      SucceedsBelow(p, ms, k - 1);
      ReachedFrom(p, ms, k - 1);
      assert Succeeds(p, ms, k - 1);
    }
  }

  /** A run gets as far as the first migration that fails. */
  lemma {:induction false} StopsAtFailure(p: Post, ms: seq<Migration>, j: nat)
    requires j < |ms|
    ensures FailsFirst(p, ms, j) <==> Reached(p, ms, 0) == j
  {
    if FailsFirst(p, ms, j) {
      ReachedFrom(p, ms, j);
    }
    if Reached(p, ms, 0) == j {
      SucceedsBelow(p, ms, j);
      ReachedFrom(p, ms, j);
    }
  }

  /** The version is not monotone: since every pass reruns the list from the start, it
      drops exactly when a migration below the old version, other than the first, is the
      first to fail. */
  lemma {:induction false} VersionDrops(p: Post, ms: seq<Migration>)
    requires WellBehaved(ms) && Speaks(ms) && VersionInRange(p, |ms|) && Outdated(p, |ms|) && p.version.Some?
    ensures var q := Processed(p, ms);
      q.version.value < p.version.value <==> exists j :: 0 < j < p.version.value && FailsFirst(p, ms, j)
  {
    hide FailsFirst;
    MigrateOutcome(p, ms, 0);
    var r := Reached(p, ms, 0);
    forall j | 0 < j < p.version.value ensures FailsFirst(p, ms, j) <==> r == j {
      StopsAtFailure(p, ms, j);
    }
    assert 0 < r < p.version.value ==> FailsFirst(p, ms, r);
  }

  /** With at most two migrations, as shipped, no version ever drops. */
  lemma {:induction false} ShortListsNeverDrop(p: Post, ms: seq<Migration>)
    requires WellBehaved(ms) && Speaks(ms) && VersionInRange(p, |ms|) && p.version.Some? && |ms| <= 2
    ensures Processed(p, ms).version.value >= p.version.value
  {
    hide Migrate;
    if Outdated(p, |ms|) { VersionDrops(p, ms); }
  }

  /** The rows the worker fetches, in table order. */
  function Selected(ps: seq<Post>, n: nat): (r: seq<Post>)
    ensures forall p :: p in r <==> p in ps && Outdated(p, n)
  {
    if ps == [] then [] else (if Outdated(ps[0], n) then [ps[0]] else []) + Selected(ps[1..], n)
  }

  // ---- the shipped migrations ---------------------------------------------------

  type Message = s: string | s != "" witness "error"

  /** The database's answer to the UPDATE of a row, old and new: an error or none. */
  type Tx = (Post, Post) -> Option<Message>

  /** A refused UPDATE leaves the row and fails the migration. */
  function Update(tx: Tx, p: Post, q: Post): (m: Migrated)
    ensures m.error != Some("")
  {
    match tx(p, q)
    case None => Migrated(q, None)
    case Some(message) => Migrated(p, Some(message))
  }

  function GenreToTags(tx: Tx): Migration {
    (p: Post) =>
      if p.tags != "" || p.genre == "" then Migrated(p, None)
      else Update(tx, p, p.(tags := p.genre, genre := ""))
  }

  function ProviderTitle(tx: Tx): Migration {
    (p: Post) =>
      if p.provider != SoundCloud || p.providerTitle != "" then Migrated(p, None)
      else Update(tx, p, p.(providerTitle := p.title, title := ""))
  }

  const SHIPPED: seq<Tx -> Migration> := [GenreToTags, ProviderTitle]

  /** A list of migrations inside one transaction. */
  function Under(list: seq<Tx -> Migration>, tx: Tx): (ms: seq<Migration>)
    ensures |ms| == |list| && forall k :: 0 <= k < |ms| ==> ms[k] == list[k](tx)
  {
    if list == [] then [] else [list[0](tx)] + Under(list[1..], tx)
  }

  lemma {:induction false} ShippedWellBehaved(tx: Tx)
    ensures WellBehaved(Under(SHIPPED, tx)) && Speaks(Under(SHIPPED, tx))
  {
    hide GenreToTags, ProviderTitle, SameRow;
    var ms := Under(SHIPPED, tx);
    assert ms[0] == GenreToTags(tx) && ms[1] == ProviderTitle(tx);
    forall k, p | 0 <= k < |ms| ensures SameRow(p, ms[k](p).post) && ms[k](p).error != Some("") {
      BothBehave(p, tx);
      assert BehavesOn(ms[k], p);
    }
  }

  predicate BehavesOn(m: Migration, p: Post) {
    SameRow(p, m(p).post) && m(p).error != Some("")
  }

  lemma {:induction false} BothBehave(p: Post, tx: Tx)
    ensures BehavesOn(GenreToTags(tx), p) && BehavesOn(ProviderTitle(tx), p)
  {
  }

  lemma {:induction false} MigrateShipped(p: Post, tx: Tx)
    ensures var g := GenreToTags(tx)(p);
      Migrate(p, Under(SHIPPED, tx), 0) ==
        if g.error.Some? then g.post.(error := g.error)
        else
          var t := ProviderTitle(tx)(g.post.(version := Some(1)));
          if t.error.Some? then t.post.(error := t.error) else t.post.(version := Some(2))
  {
    hide GenreToTags, ProviderTitle;
    var ms := Under(SHIPPED, tx);
    var g := GenreToTags(tx)(p);
    assert ms[0] == GenreToTags(tx) && ms[1] == ProviderTitle(tx);
    if g.error.None? {
      var q := g.post.(version := Some(1));
      assert Migrate(p, ms, 0) == Migrate(q, ms, 1);
      var t := ProviderTitle(tx)(q);
      if t.error.None? {
        assert Migrate(q, ms, 1) == Migrate(t.post.(version := Some(2)), ms, 2);
      }
    }
  }

  /** What a track looks like when both migrations are behind it: a genre has become the
      tags if there were none, and the title of a SoundCloud track has become the
      provider's title if that was missing. */
  function Tidied(p: Post): Post {
    var bare, untitled := p.tags == "", p.provider == SoundCloud && p.providerTitle == "";
    p.(tags := if bare then p.genre else p.tags, genre := if bare then "" else p.genre,
       providerTitle := if untitled then p.title else p.providerTitle, title := if untitled then "" else p.title)
  }

  ghost predicate Accepts(tx: Tx) {
    forall p, q :: tx(p, q).None?
  }

  lemma {:induction false} ShippedTidies(p: Post, tx: Tx)
    ensures Failure(p, Under(SHIPPED, tx), 0).None? ==>
      Migrate(p, Under(SHIPPED, tx), 0) == Tidied(p).(version := Some(2))
    ensures Accepts(tx) ==> Failure(p, Under(SHIPPED, tx), 0).None?
    ensures Tidied(Tidied(p)) == Tidied(p)
  {
    var ms := Under(SHIPPED, tx);
    assert ms[0] == GenreToTags(tx) && ms[1] == ProviderTitle(tx);
    var g := GenreToTags(tx)(p);
    if g.error.None? {
      var q := g.post.(version := Some(1));
      var t := ProviderTitle(tx)(q);
      assert Migrate(p, ms, 0) == Migrate(q, ms, 1) && Failure(p, ms, 0) == Failure(q, ms, 1);
      if t.error.None? {
        var r := t.post.(version := Some(2));
        assert Migrate(q, ms, 1) == Migrate(r, ms, 2) && Failure(q, ms, 1) == Failure(r, ms, 2);
      }
    }
  }

  /** A run of the shipped migrations, whatever UPDATE is refused: the texts shown to
      users are the same, tags are never overwritten, and a genre is never lost. */
  lemma {:induction false} ShippedContent(p: Post, tx: Tx)
    ensures var q := Migrate(p, Under(SHIPPED, tx), 0);
      && q.SafeTitle() == p.SafeTitle() && q.SafeDescription() == p.SafeDescription()
      && (p.tags != "" ==> q.tags == p.tags && q.genre == p.genre)
      && (p.tags == "" ==> (q.tags == p.genre && q.genre == "") || (q.tags == "" && q.genre == p.genre))
  {
    MigrateShipped(p, tx);
  }

  // ---- running the list again ------------------------------------------------------

  /** Every migration of the list leaves this row as it is, whatever the worker's
      version column says. */
  ghost predicate Settled(q: Post, ms: seq<Migration>) {
    forall k, v :: 0 <= k < |ms| ==> ms[k](q.(version := v)) == Migrated(q.(version := v), None)
  }

  /** Once both shipped migrations are behind a track, running them again issues no UPDATE
      and changes nothing, in any later transaction; only a SoundCloud track without any
      title is written again. */
  lemma {:induction false} ShippedSettles(p: Post, tx: Tx, later: Tx)
    requires Failure(p, Under(SHIPPED, tx), 0).None?
    requires !(p.provider == SoundCloud && p.title == p.providerTitle == "")
    ensures Settled(Migrate(p, Under(SHIPPED, tx), 0), Under(SHIPPED, later))
  {
    hide Migrate, Failure;
    ShippedTidies(p, tx);
    var ms := Under(SHIPPED, later);
    assert ms[0] == GenreToTags(later) && ms[1] == ProviderTitle(later);
  }

  /** A settled beginning of the list is run through without effect. */
  lemma {:induction false} SkipSettled(q: Post, ms: seq<Migration>, k: nat, n: nat)
    requires k <= n <= |ms| && Settled(q, ms[..n])
    ensures Migrate(q, ms, k) == Migrate(if k == n then q else q.(version := Some(n)), ms, n)
    decreases n - k
  {
    if k < n {
      assert q == q.(version := q.version);
      var q' := q.(version := Some(k + 1));
      assert ms[..n][k] == ms[k] && ms[k](q) == Migrated(q, None);
      forall j, v | 0 <= j < n ensures ms[..n][j](q'.(version := v)) == Migrated(q'.(version := v), None) {
        assert q'.(version := v) == q.(version := v);
      }
      SkipSettled(q', ms, k + 1, n);
      assert Migrate(q, ms, k) == Migrate(q', ms, k + 1);
    }
  }

  /** A beginning of the list that fails decides the run, and one that does not hands its
      row on. */
  lemma {:induction false} BeginningFirst(p: Post, ms: seq<Migration>, k: nat, n: nat)
    requires k <= n <= |ms|
    ensures Failure(p, ms[..n], k).None? ==> Migrate(p, ms, k) == Migrate(Migrate(p, ms[..n], k), ms, n)
    ensures Failure(p, ms[..n], k).Some? ==> Migrate(p, ms, k) == Migrate(p, ms[..n], k)
    decreases n - k
  {
    if k < n {
      assert ms[..n][k] == ms[k];
      var step := ms[k](p);
      if step.error.None? {
        BeginningFirst(step.post.(version := Some(k + 1)), ms, k + 1, n);
      }
    }
  }

  lemma {:induction false} VersionAfter(p: Post, ms: seq<Migration>, k: nat)
    requires k < |ms| && Failure(p, ms, k).None?
    ensures Migrate(p, ms, k).version == Some(|ms|)
    decreases |ms| - k
  {
    var q := ms[k](p).post.(version := Some(k + 1));
    if k + 1 < |ms| { VersionAfter(q, ms, k + 1); }
  }

  /** Rerunning from the first migration is harmless: when a beginning of the list went
      through and its migrations leave the row alone from then on, running the whole list
      on that row gives what running the whole list at once gives. */
  lemma {:induction false} RerunIsHarmless(p: Post, ms: seq<Migration>, n: nat)
    requires 0 < n <= |ms| && Failure(p, ms[..n], 0).None?
    requires Settled(Migrate(p, ms[..n], 0), ms[..n])
    ensures Migrate(Migrate(p, ms[..n], 0), ms, 0) == Migrate(p, ms, 0)
  {
    var r := Migrate(p, ms[..n], 0);
    BeginningFirst(p, ms, 0, n);
    VersionAfter(p, ms[..n], 0);
    SkipSettled(r, ms, 0, n);
    assert r.(version := Some(n)) == r;
  }

  function Stamp(p: Post, v: Option<int>, e: Option<string>): Post {
    p.(version := v, error := e)
  }

  function Stamped(m: Migrated, v: Option<int>, e: Option<string>): Migrated {
    m.(post := Stamp(m.post, v, e))
  }

  /** The migration neither reads nor writes the worker's two columns. */
  ghost predicate IgnoresColumns(m: Migration) {
    forall p, v, e :: m(Stamp(p, v, e)) == Stamped(m(p), v, e)
  }

  ghost predicate IgnoresWorker(ms: seq<Migration>) {
    forall k :: 0 <= k < |ms| ==> IgnoresColumns(ms[k])
  }

  lemma {:induction false} ColumnsIgnored(m: Migration, p: Post, v: Option<int>, e: Option<string>)
    requires IgnoresColumns(m)
    ensures m(Stamp(p, v, e)) == Stamped(m(p), v, e)
    ensures m(p).post.version == p.version && m(p).post.error == p.error
  {
    assert Stamp(p, p.version, p.error) == p;
    assert m(Stamp(p, p.version, p.error)) == Stamped(m(p), p.version, p.error);
  }

  /** NULL columns make no difference to what is saved. */
  lemma {:induction false} SavedFirst(p: Post, ms: seq<Migration>, k: nat, v: Option<int>, e: Option<string>)
    requires k <= |ms| && IgnoresWorker(ms)
    requires p.version == v || (p.version == None && v == Some(0))
    requires p.error == e || (p.error == None && e == Some(""))
    ensures Saved(Migrate(Stamp(p, v, e), ms, k)) == Saved(Migrate(p, ms, k))
    decreases |ms| - k
  {
    hide IgnoresColumns;
    if k < |ms| {
      var step := ms[k](p);
      ColumnsIgnored(ms[k], p, v, e);
      if step.error.None? {
        var w := Some(k + 1);
        SavedFirst(step.post.(version := w), ms, k + 1, w, e);
      }
    }
  }

  lemma {:induction false} SettledSaved(r: Post, ms: seq<Migration>)
    requires Settled(r, ms) && IgnoresWorker(ms)
    ensures Settled(Saved(r), ms)
  {
    hide IgnoresColumns;
    var e := Saved(r).error;
    forall k, v | 0 <= k < |ms|
      ensures ms[k](Saved(r).(version := v)) == Migrated(Saved(r).(version := v), None)
    {
      var q := r.(version := v);
      assert ms[k](q) == Migrated(q, None);
      assert Saved(r).(version := v) == Stamp(q, v, e);
      ColumnsIgnored(ms[k], q, v, e);
    }
  }

  lemma {:induction false} HeadBehaves(p: Post, ms: seq<Migration>, n: nat)
    requires n <= |ms| && WellBehaved(ms) && Speaks(ms)
    ensures WellBehaved(ms[..n]) && Speaks(ms[..n])
  {
    assert forall k :: 0 <= k < n ==> ms[..n][k] == ms[k];
  }

  /** Processing with a shorter list and later with the whole list gives the row and the
      version that processing once with the whole list gives, for any list whose shorter
      part settles a row that it gets through. */
  lemma {:induction false} PrefixThenAll(p: Post, ms: seq<Migration>, n: nat)
    requires n <= |ms| && WellBehaved(ms) && Speaks(ms) && IgnoresWorker(ms)
    requires n < |ms| && Failure(p, ms[..n], 0).None? ==> Settled(Migrate(p, ms[..n], 0), ms[..n])
    ensures Processed(Processed(p, ms[..n]), ms) == Processed(p, ms)
  {
    hide Migrate, Failure, Settled, IgnoresWorker, SameRow;
    var head := ms[..n];
    if Outdated(p, n) {
      var r := Migrate(p, head, 0);
      HeadBehaves(p, ms, n);
      HeadOutcome(p, head);
      BeginningFirst(p, ms, 0, n);
      if Failure(p, head, 0).None? {
        if n < |ms| {
          HeadThenAll(p, ms, n);
        } else {
          assert head == ms;
          if n == 0 { EmptyList(p); EmptyList(Saved(p)); }
        }
      }
    }
  }

  lemma {:induction false} EmptyList(p: Post)
    ensures Migrate(p, [], 0) == p
  {
  }

  /** What the worker's columns say after a run of the shorter list. */
  lemma {:induction false} HeadOutcome(p: Post, head: seq<Migration>)
    requires WellBehaved(head) && Speaks(head) && Outdated(p, |head|)
    ensures var r, f := Migrate(p, head, 0), Failure(p, head, 0);
      && r.kind == p.kind
      && (f.None? ==> r.error == p.error && r.version == if |head| > 0 then Some(|head|) else p.version)
      && (f.Some? ==> r.error == f && f.value != "")
  {
    MigrateOutcome(p, head, 0);
  }

  lemma {:induction false} HeadThenAll(p: Post, ms: seq<Migration>, n: nat)
    requires n < |ms| && IgnoresWorker(ms) && Settled(Migrate(p, ms[..n], 0), ms[..n])
    requires var r := Migrate(p, ms[..n], 0);
      && (n > 0 ==> r.version == Some(n)) && Migrate(p, ms, 0) == Migrate(r, ms, n)
    ensures Saved(Migrate(Saved(Migrate(p, ms[..n], 0)), ms, 0)) == Saved(Migrate(p, ms, 0))
  {
    hide Migrate, Settled, IgnoresColumns;
    var r := Migrate(p, ms[..n], 0);
    IgnoresWorkerHead(ms, n);
    SettledSaved(r, ms[..n]);
    var q := Saved(r);
    SkipSettled(q, ms, 0, n);
    assert n > 0 ==> q.(version := Some(n)) == q;
    SavedFirst(r, ms, n, q.version, q.error);
    assert Stamp(r, q.version, q.error) == q;
  }

  lemma {:induction false} IgnoresWorkerHead(ms: seq<Migration>, n: nat)
    requires n <= |ms| && IgnoresWorker(ms)
    ensures IgnoresWorker(ms[..n])
  {
    hide IgnoresColumns;
    assert forall k :: 0 <= k < n ==> ms[..n][k] == ms[k];
  }

  /** Whether an UPDATE is refused does not depend on the worker's two columns. */
  ghost predicate Blind(tx: Tx) {
    forall p, q, v, e :: tx(Stamp(p, v, e), Stamp(q, v, e)) == tx(p, q)
  }

  lemma {:induction false} ShippedIgnoresWorker(tx: Tx)
    requires Blind(tx)
    ensures IgnoresWorker(Under(SHIPPED, tx))
  {
    hide Blind, IgnoresColumns;
    var ms := Under(SHIPPED, tx);
    assert ms[0] == GenreToTags(tx) && ms[1] == ProviderTitle(tx);
    GenreBlind(tx);
    TitleBlind(tx);
  }

  lemma {:induction false} GenreBlind(tx: Tx)
    requires Blind(tx)
    ensures IgnoresColumns(GenreToTags(tx))
  {
    forall p, v, e ensures GenreToTags(tx)(Stamp(p, v, e)) == Stamped(GenreToTags(tx)(p), v, e) {
      var q := p.(tags := p.genre, genre := "");
      assert Stamp(p, v, e).(tags := p.genre, genre := "") == Stamp(q, v, e);
    }
  }

  lemma {:induction false} TitleBlind(tx: Tx)
    requires Blind(tx)
    ensures IgnoresColumns(ProviderTitle(tx))
  {
    forall p, v, e ensures ProviderTitle(tx)(Stamp(p, v, e)) == Stamped(ProviderTitle(tx)(p), v, e) {
      var q := p.(providerTitle := p.title, title := "");
      assert Stamp(p, v, e).(providerTitle := p.title, title := "") == Stamp(q, v, e);
    }
  }

  /** So it is with the shipped migrations, whatever UPDATE is refused. */
  lemma {:induction false} ShippedPrefixThenAll(p: Post, tx: Tx, n: nat)
    requires n <= 2 && Blind(tx)
    ensures var ms := Under(SHIPPED, tx); Processed(Processed(p, ms[..n]), ms) == Processed(p, ms)
  {
    hide Processed, Blind, Failure, Migrate, IgnoresColumns, WellBehaved, Speaks;
    var ms := Under(SHIPPED, tx);
    ShippedWellBehaved(tx);
    ShippedIgnoresWorker(tx);
    if n == 1 { GenreSettles(p, tx); }
    PrefixThenAll(p, ms, n);
  }

  lemma {:induction false} GenreSettles(p: Post, tx: Tx)
    ensures var head := Under(SHIPPED, tx)[..1];
      Failure(p, head, 0).None? ==> Settled(Migrate(p, head, 0), head)
  {
    var head := Under(SHIPPED, tx)[..1];
    assert head[0] == GenreToTags(tx);
    var g := GenreToTags(tx)(p);
    if g.error.None? {
      assert Migrate(p, head, 0) == Migrate(g.post.(version := Some(1)), head, 1);
    }
  }

  /** A drop happens: a third migration is added, and for a track that both shipped ones
      are behind the second one is now refused. */
  lemma {:induction false} DropHappens(p: Post, tx: Tx, third: Tx -> Migration)
    requires Outdated(p, 3) && p.version == Some(2) && p.tags != ""
    requires p.provider == SoundCloud && p.title == p.providerTitle == ""
    requires forall q, r :: tx(q, r) == Some("database is locked")
    ensures Processed(p, Under(SHIPPED + [third], tx)).version == Some(1)
  {
    var ms := Under(SHIPPED + [third], tx);
    assert ms[0] == GenreToTags(tx) && ms[1] == ProviderTitle(tx);
    var q := p.(version := Some(1));
    assert Migrate(p, ms, 0) == Migrate(q, ms, 1);
  }
}
