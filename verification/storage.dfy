/**
 The state-changing endpoints of backend/server.py over an abstract store: the `users`,
 `posts` and `engagements` collections become sequences in insertion order, and each
 endpoint becomes a function from the store (and its request) to the new store and the
 response. Generated ids, timestamps and the HTTP plumbing are not modelled.
 */
module Storage {
  import opened Results
  import opened Seqs
  import Normalizer
  import Ingest
  import Reconciler
  import Diagnostics

  /** A roster entry: a normalised username tagged with its platform. */
  datatype User = User(username: string, platform: string)

  /** A post; `id` is the key engagement records refer to. */
  datatype Post = Post(id: string, title: string, platform: string)

  /** Evidence that `username` engaged with the post `postId`, tagged with the post's platform. */
  datatype Engagement = Engagement(postId: string, username: string, platform: string)

  datatype Db = Db(users: seq<User>, posts: seq<Post>, engagements: seq<Engagement>)

  /** What an endpoint leaves behind: the new store and the response or HTTP error. */
  datatype Reply<T> = Reply(db: Db, result: Result<T>)

  /** The response of an upload: how many records were stored and the first five usernames. */
  datatype UploadSummary = UploadSummary(count: nat, sample: seq<string>)

  const SampleSize: nat := 5

  predicate ValidPlatform(platform: string) {
    platform == "instagram" || platform == "x"
  }

  /** Every stored username, on the roster or in an engagement record, is a non-empty key. */
  predicate Valid(db: Db) {
    && (forall i :: 0 <= i < |db.users| ==> Normalizer.IsUsername(db.users[i].username))
    && (forall i :: 0 <= i < |db.engagements| ==> Normalizer.IsUsername(db.engagements[i].username))
  }

  // Queries

  function OnPlatform(platform: string): User -> bool {
    (u: User) => u.platform == platform
  }

  function OffPlatform(platform: string): User -> bool {
    (u: User) => u.platform != platform
  }

  function OfPost(postId: string): Engagement -> bool {
    (e: Engagement) => e.postId == postId
  }

  function NotOfPost(postId: string): Engagement -> bool {
    (e: Engagement) => e.postId != postId
  }

  /** `db.users.find({"platform": platform})`. */
  function UsersOn(users: seq<User>, platform: string): (r: seq<User>)
    ensures forall i :: 0 <= i < |r| ==> r[i].platform == platform
  {
    Filter(OnPlatform(platform), users)
  }

  /** `db.engagements.find({"post_id": postId})`. */
  function EngagementsOf(engagements: seq<Engagement>, postId: string): (r: seq<Engagement>)
    ensures forall i :: 0 <= i < |r| ==> r[i].postId == postId
  {
    Filter(OfPost(postId), engagements)
  }

  function UserNames(users: seq<User>): (names: seq<string>)
    ensures |names| == |users|
    ensures forall i :: 0 <= i < |users| ==> names[i] == users[i].username
  {
    if users == [] then [] else [users[0].username] + UserNames(users[1..])
  }

  function EngagementNames(engagements: seq<Engagement>): (names: seq<string>)
    ensures |names| == |engagements|
    ensures forall i :: 0 <= i < |engagements| ==> names[i] == engagements[i].username
  {
    if engagements == [] then [] else [engagements[0].username] + EngagementNames(engagements[1..])
  }

  /** The usernames on a platform's roster, in stored order (`management_usernames`). */
  function Roster(db: Db, platform: string): seq<string> {
    UserNames(UsersOn(db.users, platform))
  }

  /** The usernames recorded as engaged with a post, in stored order. */
  function EngagedNames(db: Db, postId: string): seq<string> {
    EngagementNames(EngagementsOf(db.engagements, postId))
  }

  /** `db.posts.find_one({"id": postId})`: the position of the first post with that id. */
  function FindPost(posts: seq<Post>, postId: string): (k: Option<nat>)
    ensures k.Some? ==> k.value < |posts| && posts[k.value].id == postId
    ensures k.Some? ==> forall j :: 0 <= j < k.value ==> posts[j].id != postId
    ensures k.None? <==> forall j :: 0 <= j < |posts| ==> posts[j].id != postId
  {
    if posts == [] then None
    else if posts[0].id == postId then Some(0)
    else match FindPost(posts[1..], postId)
      case None => None
      case Some(k) => Some(k + 1)
  }

  /** New roster entries for `names`, all tagged with `platform`. */
  function TagUsers(names: seq<string>, platform: string): (r: seq<User>)
    ensures |r| == |names|
    ensures forall i :: 0 <= i < |r| ==> r[i] == User(names[i], platform)
  {
    if names == [] then [] else [User(names[0], platform)] + TagUsers(names[1..], platform)
  }

  /** New engagement records for `names` on one post, all tagged with the post's platform. */
  function TagEngagements(names: seq<string>, postId: string, platform: string): (r: seq<Engagement>)
    ensures |r| == |names|
    ensures forall i :: 0 <= i < |r| ==> r[i] == Engagement(postId, names[i], platform)
  {
    if names == [] then [] else [Engagement(postId, names[0], platform)] + TagEngagements(names[1..], postId, platform)
  }

  predicate NonEmpty(s: string) {
    s != ""
  }

  // Helper facts about the queries

  lemma {:induction false} UserNamesOfTagged(names: seq<string>, platform: string)
    ensures UserNames(TagUsers(names, platform)) == names
  {
  }

  lemma {:induction false} EngagementNamesOfTagged(names: seq<string>, postId: string, platform: string)
    ensures EngagementNames(TagEngagements(names, postId, platform)) == names
  {
  }

  /** Replacing a platform's roster: the platform sees only the new entries, every other platform sees its old ones. */
  lemma ReplaceUsersQueries(users: seq<User>, added: seq<User>, platform: string, other: string)
    requires forall i :: 0 <= i < |added| ==> added[i].platform == platform
    requires other != platform
    ensures UsersOn(Filter(OffPlatform(platform), users) + added, platform) == added
    ensures UsersOn(Filter(OffPlatform(platform), users) + added, other) == UsersOn(users, other)
  {
    var kept := Filter(OffPlatform(platform), users);
    FilterAppend(OnPlatform(platform), kept, added);
    FilterAppend(OnPlatform(other), kept, added);
    FilterDropsAll(OnPlatform(platform), kept);
    FilterKeepsAll(OnPlatform(platform), added);
    FilterDropsAll(OnPlatform(other), added);
    FilterNarrow(OnPlatform(other), OffPlatform(platform), users);
  }

  /** Replacing a post's engagement records: the post sees only the new records, every other post sees its old ones. */
  lemma ReplaceEngagementsQueries(engagements: seq<Engagement>, added: seq<Engagement>, postId: string, other: string)
    requires forall i :: 0 <= i < |added| ==> added[i].postId == postId
    requires other != postId
    ensures EngagementsOf(Filter(NotOfPost(postId), engagements) + added, postId) == added
    ensures EngagementsOf(Filter(NotOfPost(postId), engagements) + added, other) == EngagementsOf(engagements, other)
  {
    var kept := Filter(NotOfPost(postId), engagements);
    FilterAppend(OfPost(postId), kept, added);
    FilterAppend(OfPost(other), kept, added);
    FilterDropsAll(OfPost(postId), kept);
    FilterKeepsAll(OfPost(postId), added);
    FilterDropsAll(OfPost(other), added);
    FilterNarrow(OfPost(other), NotOfPost(postId), engagements);
  }

  // Endpoints

  /**
   The store change of a successful roster upload: when there is anything to insert,
   delete every roster entry of the platform and insert the new names, tagged with it.
   */
  function ReplaceRoster(db: Db, platform: string, names: seq<string>): (db': Db)
    ensures names == [] ==> db' == db
    ensures names != [] ==> Roster(db', platform) == names
    ensures forall other :: other != platform ==> UsersOn(db'.users, other) == UsersOn(db.users, other)
    ensures db'.posts == db.posts && db'.engagements == db.engagements
    ensures Valid(db) && (forall i :: 0 <= i < |names| ==> Normalizer.IsUsername(names[i])) ==> Valid(db')
  {
    if names == [] then db
    else
      ReplaceUsersFacts(db.users, names, platform);
      db.(users := Filter(OffPlatform(platform), db.users) + TagUsers(names, platform))
  }

  /**
   `upload_users`: check the platform, ingest the file, then replace the platform's roster
   with the extracted usernames.
   */
  function UploadUsers(db: Db, platform: string, upload: Ingest.Upload, readers: Ingest.Readers)
    : (reply: Reply<UploadSummary>)
    ensures !ValidPlatform(platform) ==> reply == Reply(db, Err(Failure(BadRequest, InvalidPlatform)))
    ensures ValidPlatform(platform) && Ingest.IngestUpload(upload, readers).Err? ==>
      reply == Reply(db, Err(Ingest.IngestUpload(upload, readers).failure))
    ensures ValidPlatform(platform) && Ingest.IngestUpload(upload, readers).Ok? ==> reply.result.Ok?
    ensures reply.result.Ok? ==>
      && Ingest.IngestUpload(upload, readers).Ok?
      && reply.db == ReplaceRoster(db, platform, Ingest.IngestUpload(upload, readers).value)
      && Roster(reply.db, platform) == Ingest.IngestUpload(upload, readers).value
      && reply.result.value.count == |Ingest.IngestUpload(upload, readers).value|
    ensures forall other :: other != platform ==> UsersOn(reply.db.users, other) == UsersOn(db.users, other)
    ensures reply.db.posts == db.posts && reply.db.engagements == db.engagements
    ensures Valid(db) ==> Valid(reply.db)
  {
    if !ValidPlatform(platform) then Reply(db, Err(Failure(BadRequest, InvalidPlatform)))
    else
      match Ingest.IngestUpload(upload, readers)
      case Err(failure) => Reply(db, Err(failure))
      case Ok(names) =>
        Reply(ReplaceRoster(db, platform, names), Ok(UploadSummary(|names|, Take(names, SampleSize))))
  }

  /** What `UploadUsers` needs about the replaced roster. */
  lemma ReplaceUsersFacts(users: seq<User>, names: seq<string>, platform: string)
    ensures var users' := Filter(OffPlatform(platform), users) + TagUsers(names, platform);
      && UserNames(UsersOn(users', platform)) == names
      && (forall other :: other != platform ==> UsersOn(users', other) == UsersOn(users, other))
      && ((forall i :: 0 <= i < |users| ==> Normalizer.IsUsername(users[i].username)) &&
          (forall i :: 0 <= i < |names| ==> Normalizer.IsUsername(names[i])) ==>
          forall i :: 0 <= i < |users'| ==> Normalizer.IsUsername(users'[i].username))
  {
    var added := TagUsers(names, platform);
    var kept := Filter(OffPlatform(platform), users);
    forall other | other != platform
      ensures UsersOn(kept + added, other) == UsersOn(users, other)
    {
      ReplaceUsersQueries(users, added, platform, other);
    }
    ReplaceUsersQueries(users, added, platform, if platform == "x" then "instagram" else "x");
    UserNamesOfTagged(names, platform);
  }

  /**
   `add_user_manually`: check the platform, normalise the name, refuse an empty key and
   otherwise append the entry, even when the platform already lists that username.
   */
  function AddUser(db: Db, platform: string, username: string): (reply: Reply<User>)
    ensures !ValidPlatform(platform) ==> reply == Reply(db, Err(Failure(BadRequest, InvalidPlatform)))
    ensures ValidPlatform(platform) && Normalizer.Normalize(Some(username)) == "" ==>
      reply == Reply(db, Err(Failure(BadRequest, InvalidUsername)))
    ensures ValidPlatform(platform) && Normalizer.Normalize(Some(username)) != "" ==> reply.result.Ok?
    ensures reply.result.Ok? ==>
      && reply.result.value == User(Normalizer.Normalize(Some(username)), platform)
      && Normalizer.IsUsername(reply.result.value.username)
      && UsersOn(reply.db.users, platform) == UsersOn(db.users, platform) + [reply.result.value]
    ensures forall other :: other != platform ==> UsersOn(reply.db.users, other) == UsersOn(db.users, other)
    ensures reply.db.posts == db.posts && reply.db.engagements == db.engagements
    ensures Valid(db) ==> Valid(reply.db)
  {
    if !ValidPlatform(platform) then Reply(db, Err(Failure(BadRequest, InvalidPlatform)))
    else
      var key := Normalizer.Normalize(Some(username));
      if key == "" then Reply(db, Err(Failure(BadRequest, InvalidUsername)))
      else
        var user := User(key, platform);
        AppendUserFacts(db.users, user);
        Reply(db.(users := db.users + [user]), Ok(user))
  }

  lemma AppendUserFacts(users: seq<User>, user: User)
    ensures UsersOn(users + [user], user.platform) == UsersOn(users, user.platform) + [user]
    ensures forall other :: other != user.platform ==> UsersOn(users + [user], other) == UsersOn(users, other)
  {
    FilterAppend(OnPlatform(user.platform), users, [user]);
    forall other | other != user.platform
      ensures UsersOn(users + [user], other) == UsersOn(users, other)
    {
      FilterAppend(OnPlatform(other), users, [user]);
    }
  }

  /** The store with the post at position `k` removed (`delete_one`): every other post stays, in order. */
  function RemoveAt(posts: seq<Post>, k: nat): (r: seq<Post>)
    requires k < |posts|
    ensures |r| == |posts| - 1
    ensures forall i :: 0 <= i < k ==> r[i] == posts[i]
    ensures forall i :: k <= i < |r| ==> r[i] == posts[i + 1]
    ensures multiset(r) + multiset{posts[k]} == multiset(posts)
  {
    assert posts == posts[..k] + [posts[k]] + posts[k + 1..];
    posts[..k] + posts[k + 1..]
  }

  /**
   `delete_post`: delete the post's engagement records first, then the first post with
   that id; answer 404 when there is none, with the engagement records already gone.
   */
  function DeletePost(db: Db, postId: string): (reply: Reply<()>)
    ensures EngagementsOf(reply.db.engagements, postId) == []
    ensures forall other :: other != postId ==>
      EngagementsOf(reply.db.engagements, other) == EngagementsOf(db.engagements, other)
    ensures reply.result.Err? <==> FindPost(db.posts, postId).None?
    ensures reply.result.Err? ==> reply.result.failure == Failure(NotFound, PostNotFound) && reply.db.posts == db.posts
    ensures reply.result.Ok? ==> reply.db.posts == RemoveAt(db.posts, FindPost(db.posts, postId).value)
    ensures reply.db.users == db.users
    ensures Valid(db) ==> Valid(reply.db)
  {
    var engagements' := Filter(NotOfPost(postId), db.engagements);
    DeleteEngagementsFacts(db.engagements, postId);
    match FindPost(db.posts, postId)
    case None => Reply(db.(engagements := engagements'), Err(Failure(NotFound, PostNotFound)))
    case Some(k) => Reply(Db(db.users, RemoveAt(db.posts, k), engagements'), Ok(()))
  }

  lemma DeleteEngagementsFacts(engagements: seq<Engagement>, postId: string)
    ensures EngagementsOf(Filter(NotOfPost(postId), engagements), postId) == []
    ensures forall other :: other != postId ==>
      EngagementsOf(Filter(NotOfPost(postId), engagements), other) == EngagementsOf(engagements, other)
  {
    assert Filter(NotOfPost(postId), engagements) + [] == Filter(NotOfPost(postId), engagements);
    forall other | other != postId
      ensures EngagementsOf(Filter(NotOfPost(postId), engagements), other) == EngagementsOf(engagements, other)
    {
      ReplaceEngagementsQueries(engagements, [], postId, other);
    }
    ReplaceEngagementsQueries(engagements, [], postId, postId + "'");
  }

  /**
   The store change of a successful engagement upload: delete every engagement record of
   the post and insert one record per non-empty name, tagged with the post's platform.
   */
  function ReplaceEngagements(db: Db, postId: string, platform: string, names: seq<string>): (db': Db)
    ensures EngagementsOf(db'.engagements, postId) == TagEngagements(Filter(NonEmpty, names), postId, platform)
    ensures (forall i :: 0 <= i < |names| ==> names[i] != "") ==> EngagedNames(db', postId) == names
    ensures forall other :: other != postId ==>
      EngagementsOf(db'.engagements, other) == EngagementsOf(db.engagements, other)
    ensures db'.users == db.users && db'.posts == db.posts
    ensures Valid(db) && (forall i :: 0 <= i < |names| ==> Normalizer.IsKey(names[i])) ==> Valid(db')
  {
    var kept := Filter(NonEmpty, names);
    KeptNamesAreUsernames(names);
    ReplaceEngagementsFacts(db.engagements, kept, postId, platform);
    db.(engagements := Filter(NotOfPost(postId), db.engagements) + TagEngagements(kept, postId, platform))
  }

  /** Keeping the non-empty names keeps every name when none is empty, and leaves only usernames when all are keys. */
  lemma KeptNamesAreUsernames(names: seq<string>)
    ensures (forall i :: 0 <= i < |names| ==> names[i] != "") ==> Filter(NonEmpty, names) == names
    ensures (forall i :: 0 <= i < |names| ==> Normalizer.IsKey(names[i])) ==>
      forall i :: 0 <= i < |Filter(NonEmpty, names)| ==> Normalizer.IsUsername(Filter(NonEmpty, names)[i])
  {
    if forall i :: 0 <= i < |names| ==> names[i] != "" {
      FilterKeepsAll(NonEmpty, names);
    }
  }

  /**
   `upload_engagement`: look the post up, ingest the file, then replace the post's
   engagement records with the extracted usernames.
   */
  function UploadEngagements(db: Db, postId: string, upload: Ingest.Upload, readers: Ingest.Readers)
    : (reply: Reply<UploadSummary>)
    ensures FindPost(db.posts, postId).None? ==> reply == Reply(db, Err(Failure(NotFound, PostNotFound)))
    ensures FindPost(db.posts, postId).Some? && Ingest.IngestUpload(upload, readers).Err? ==>
      reply == Reply(db, Err(Ingest.IngestUpload(upload, readers).failure))
    ensures FindPost(db.posts, postId).Some? && Ingest.IngestUpload(upload, readers).Ok? ==> reply.result.Ok?
    ensures reply.result.Ok? ==>
      && FindPost(db.posts, postId).Some?
      && Ingest.IngestUpload(upload, readers).Ok?
      && var platform := db.posts[FindPost(db.posts, postId).value].platform;
         && reply.db == ReplaceEngagements(db, postId, platform, Ingest.IngestUpload(upload, readers).value)
         && EngagedNames(reply.db, postId) == Ingest.IngestUpload(upload, readers).value
         && reply.result.value.count == |Ingest.IngestUpload(upload, readers).value|
    ensures reply.result.Err? ==> reply.db == db
    ensures Valid(db) ==> Valid(reply.db)
  {
    match FindPost(db.posts, postId)
    case None => Reply(db, Err(Failure(NotFound, PostNotFound)))
    case Some(k) =>
      match Ingest.IngestUpload(upload, readers)
      case Err(failure) => Reply(db, Err(failure))
      case Ok(names) =>
        var platform := db.posts[k].platform;
        assert forall i :: 0 <= i < |names| ==> Normalizer.IsKey(names[i]);
        KeptNamesAreUsernames(names);
        var count := |Filter(NonEmpty, names)|;
        Reply(ReplaceEngagements(db, postId, platform, names), Ok(UploadSummary(count, Take(names, SampleSize))))
  }

  /** What `UploadEngagements` needs about the replaced engagement records. */
  lemma ReplaceEngagementsFacts(engagements: seq<Engagement>, names: seq<string>, postId: string, platform: string)
    ensures var engagements' := Filter(NotOfPost(postId), engagements) + TagEngagements(names, postId, platform);
      && EngagementNames(EngagementsOf(engagements', postId)) == names
      && EngagementsOf(engagements', postId) == TagEngagements(names, postId, platform)
      && (forall other :: other != postId ==> EngagementsOf(engagements', other) == EngagementsOf(engagements, other))
      && ((forall i :: 0 <= i < |engagements| ==> Normalizer.IsUsername(engagements[i].username)) &&
          (forall i :: 0 <= i < |names| ==> Normalizer.IsUsername(names[i])) ==>
          forall i :: 0 <= i < |engagements'| ==> Normalizer.IsUsername(engagements'[i].username))
  {
    var added := TagEngagements(names, postId, platform);
    var kept := Filter(NotOfPost(postId), engagements);
    forall other | other != postId
      ensures EngagementsOf(kept + added, other) == EngagementsOf(engagements, other)
    {
      ReplaceEngagementsQueries(engagements, added, postId, other);
    }
    ReplaceEngagementsQueries(engagements, added, postId, postId + "'");
    EngagementNamesOfTagged(names, postId, platform);
  }

  /** The response of `analyze_engagement`: the post's identity and the analysis. */
  datatype PostAnalysis = PostAnalysis(postId: string, title: string, platform: string, analysis: Reconciler.Analysis)

  /** `analyze_engagement`: the post's platform roster against the post's engagement records. */
  function AnalyzePost(db: Db, postId: string): (r: Result<PostAnalysis>)
    ensures r.Err? <==> FindPost(db.posts, postId).None?
    ensures r.Err? ==> r.failure == Failure(NotFound, PostNotFound)
    ensures r.Ok? ==>
      var post := db.posts[FindPost(db.posts, postId).value];
      && r.value.platform == post.platform
      && r.value.analysis == Reconciler.Reconcile(Roster(db, post.platform), EngagedNames(db, postId))
  {
    match FindPost(db.posts, postId)
    case None => Err(Failure(NotFound, PostNotFound))
    case Some(k) =>
      var post := db.posts[k];
      Ok(PostAnalysis(postId, post.title, post.platform,
                      Reconciler.Reconcile(Roster(db, post.platform), EngagedNames(db, postId))))
  }

  /** `debug_normalization`: the diagnostics report for the post's platform roster and engagement records. */
  function DebugPost(db: Db, postId: string): (r: Result<Diagnostics.Report>)
    ensures r.Err? <==> FindPost(db.posts, postId).None?
    ensures r.Err? ==> r.failure == Failure(NotFound, PostNotFound)
    ensures r.Ok? ==>
      var post := db.posts[FindPost(db.posts, postId).value];
      && r.value == Diagnostics.Diagnose(Roster(db, post.platform), EngagedNames(db, postId))
      && r.value.managementUsers.all == Roster(db, post.platform)
      && r.value.engagementUsers.all == EngagedNames(db, postId)
      && r.value.matches.users == AnalyzePost(db, postId).value.analysis.engagedUsers
      && r.value.mismatches.users == AnalyzePost(db, postId).value.analysis.notEngagedUsers
  {
    match FindPost(db.posts, postId)
    case None => Err(Failure(NotFound, PostNotFound))
    case Some(k) =>
      Ok(Diagnostics.Diagnose(Roster(db, db.posts[k].platform), EngagedNames(db, postId)))
  }

  /**
   After a roster upload for a platform, analysing any post of that platform sees exactly
   the uploaded list: a name that was on the old roster but not in the upload is neither
   engaged nor not engaged, and each uploaded name is engaged exactly when the post's
   unchanged engagement records carry it.
   */
  lemma UploadReplacesRoster(db: Db, platform: string, names: seq<string>, postId: string, stale: string)
    requires names != [] && stale !in names
    requires FindPost(db.posts, postId).Some? && db.posts[FindPost(db.posts, postId).value].platform == platform
    ensures var after := ReplaceRoster(db, platform, names);
      && AnalyzePost(after, postId).Ok?
      && AnalyzePost(after, postId).value.analysis.totalManagement == |names|
      && stale !in AnalyzePost(after, postId).value.analysis.engagedUsers
      && stale !in AnalyzePost(after, postId).value.analysis.notEngagedUsers
      && forall x :: x in names ==>
        (x in AnalyzePost(after, postId).value.analysis.engagedUsers <==> x in EngagedNames(db, postId))
  {
    var after := ReplaceRoster(db, platform, names);
    assert after.posts == db.posts && after.engagements == db.engagements;
    assert Roster(after, platform) == names;
    Reconciler.MatchedMembership(names, Reconciler.Members(EngagedNames(after, postId)), stale);
    forall x | x in names
      ensures x in AnalyzePost(after, postId).value.analysis.engagedUsers <==> x in EngagedNames(db, postId)
    {
      Reconciler.ReconcileMembership(names, EngagedNames(after, postId), x);
    }
  }

  /**
   After an engagement upload for a post, a roster entry of the post's platform is engaged
   exactly when the uploaded file names it: earlier uploads for the post no longer count.
   */
  lemma UploadDecidesAnalysis(db: Db, postId: string, names: seq<string>, x: string)
    requires FindPost(db.posts, postId).Some?
    requires forall i :: 0 <= i < |names| ==> names[i] != ""
    requires x in Roster(db, db.posts[FindPost(db.posts, postId).value].platform)
    ensures var after := ReplaceEngagements(db, postId, db.posts[FindPost(db.posts, postId).value].platform, names);
      && AnalyzePost(after, postId).Ok?
      && (x in AnalyzePost(after, postId).value.analysis.engagedUsers <==> x in names)
  {
    var platform := db.posts[FindPost(db.posts, postId).value].platform;
    var after := ReplaceEngagements(db, postId, platform, names);
    assert after.posts == db.posts && after.users == db.users;
    Reconciler.ReconcileMembership(Roster(after, platform), EngagedNames(after, postId), x);
  }
}
