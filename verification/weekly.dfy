/**
 The weekly report of `get_weekly_report` in backend/server.py: for every roster entry,
 how many of the week's posts on its platform it engaged with, and a summary. The week's
 posts are an input here; selecting them by creation date needs the clock and is not
 modelled.
 */
module Weekly {
  import opened Seqs
  import Reconciler
  import opened Storage

  datatype UserRow = UserRow(username: string, platform: string, engagedPosts: nat, totalPosts: nat, rate: real)

  datatype Summary = Summary(totalUsers: nat, totalPosts: nat, activeUsers: nat)

  datatype Report = Report(users: seq<UserRow>, summary: Summary)

  /** `db.engagements.find_one({"post_id": postId, "username": username})` finds a record. */
  predicate HasEngagement(engagements: seq<Engagement>, postId: string, username: string) {
    exists i :: 0 <= i < |engagements| && engagements[i].postId == postId && engagements[i].username == username
  }

  /** How many of `posts` are on a platform (`total_posts_for_platform`). */
  function PostCount(posts: seq<Post>, platform: string): (n: nat)
    ensures n <= |posts|
  {
    if posts == [] then 0 else (if posts[0].platform == platform then 1 else 0) + PostCount(posts[1..], platform)
  }

  /** How many of the posts on the user's platform have an engagement record with the user's name. */
  function EngagedCount(posts: seq<Post>, engagements: seq<Engagement>, user: User): (n: nat)
    ensures n <= PostCount(posts, user.platform)
  {
    if posts == [] then 0
    else
      (if posts[0].platform == user.platform && HasEngagement(engagements, posts[0].id, user.username) then 1 else 0)
      + EngagedCount(posts[1..], engagements, user)
  }

  /** One row of the report. */
  function Row(posts: seq<Post>, engagements: seq<Engagement>, user: User): (row: UserRow)
    ensures row.username == user.username && row.platform == user.platform
    ensures row.engagedPosts == EngagedCount(posts, engagements, user)
    ensures row.engagedPosts <= row.totalPosts == PostCount(posts, user.platform)
    ensures row.rate == Reconciler.Percentage(row.engagedPosts, row.totalPosts)
    ensures 0.0 <= row.rate <= 100.0
  {
    var total := PostCount(posts, user.platform);
    var engaged := EngagedCount(posts, engagements, user);
    UserRow(user.username, user.platform, engaged, total, Reconciler.Percentage(engaged, total))
  }

  /** The rows of the report, one per roster entry in roster order. */
  function Rows(posts: seq<Post>, engagements: seq<Engagement>, users: seq<User>): (rows: seq<UserRow>)
    ensures |rows| == |users|
    ensures forall i :: 0 <= i < |users| ==> rows[i] == Row(posts, engagements, users[i])
  {
    if users == [] then [] else [Row(posts, engagements, users[0])] + Rows(posts, engagements, users[1..])
  }

  predicate IsActive(row: UserRow) {
    row.engagedPosts > 0
  }

  /** The number of rows with at least one engaged post. */
  function ActiveCount(rows: seq<UserRow>): (n: nat)
    ensures n <= |rows|
  {
    if rows == [] then 0 else (if IsActive(rows[0]) then 1 else 0) + ActiveCount(rows[1..])
  }

  /** The active count is the length of the list of rows with an engaged post. */
  lemma {:induction false} ActiveCountIsFilter(rows: seq<UserRow>)
    ensures ActiveCount(rows) == |Filter(IsActive, rows)|
  {
    if rows != [] {
      ActiveCountIsFilter(rows[1..]);
    }
  }

  /** The report as a single expression. */
  function WeeklyReport(recent: seq<Post>, db: Db): (r: Report)
    ensures |r.users| == r.summary.totalUsers == |db.users|
    ensures r.summary.totalPosts == |recent|
    ensures r.summary.activeUsers == |Filter(IsActive, r.users)| <= r.summary.totalUsers
    ensures forall i :: 0 <= i < |r.users| ==> r.users[i] == Row(recent, db.engagements, db.users[i])
  {
    var rows := Rows(recent, db.engagements, db.users);
    ActiveCountIsFilter(rows);
    Report(rows, Summary(|db.users|, |recent|, ActiveCount(rows)))
  }

  lemma {:induction false} EngagedCountAppend(a: seq<Post>, b: seq<Post>, engagements: seq<Engagement>, user: User)
    ensures EngagedCount(a + b, engagements, user) == EngagedCount(a, engagements, user) + EngagedCount(b, engagements, user)
    ensures PostCount(a + b, user.platform) == PostCount(a, user.platform) + PostCount(b, user.platform)
  {
    if a == [] {
      assert a + b == b;
    } else {
      assert (a + b)[0] == a[0] && (a + b)[1..] == a[1..] + b;
      EngagedCountAppend(a[1..], b, engagements, user);
    }
  }

  lemma {:induction false} ActiveCountAppend(a: seq<UserRow>, b: seq<UserRow>)
    ensures ActiveCount(a + b) == ActiveCount(a) + ActiveCount(b)
  {
    if a == [] {
      assert a + b == b;
    } else {
      assert (a + b)[1..] == a[1..] + b;
      ActiveCountAppend(a[1..], b);
    }
  }

  /** A user is active exactly when some post of the week on its platform has a record with its name. */
  lemma {:induction false} EngagedCountPositive(posts: seq<Post>, engagements: seq<Engagement>, user: User)
    ensures EngagedCount(posts, engagements, user) > 0 <==>
      exists j :: 0 <= j < |posts| && posts[j].platform == user.platform && HasEngagement(engagements, posts[j].id, user.username)
  {
    if posts != [] {
      EngagedCountPositive(posts[1..], engagements, user);
      if exists j :: 0 <= j < |posts| && posts[j].platform == user.platform && HasEngagement(engagements, posts[j].id, user.username) {
        var j :| 0 <= j < |posts| && posts[j].platform == user.platform && HasEngagement(engagements, posts[j].id, user.username);
        if j > 0 {
          assert posts[1..][j - 1] == posts[j];
        }
      }
      if exists j :: 0 <= j < |posts[1..]| && posts[1..][j].platform == user.platform && HasEngagement(engagements, posts[1..][j].id, user.username) {
        var j :| 0 <= j < |posts[1..]| && posts[1..][j].platform == user.platform && HasEngagement(engagements, posts[1..][j].id, user.username);
        assert posts[j + 1] == posts[1..][j];
      }
    }
  }

  /** A user engaged with every post of its platform in the week has a rate of 100. */
  /**
   A row of the report is active exactly when some post of the week on the user's platform
   has an engagement record with the user's name.
   */
  lemma ActiveRowIffEngaged(recent: seq<Post>, db: Db, i: nat)
    requires i < |db.users|
    ensures IsActive(WeeklyReport(recent, db).users[i]) <==>
      exists j :: 0 <= j < |recent| && recent[j].platform == db.users[i].platform &&
        HasEngagement(db.engagements, recent[j].id, db.users[i].username)
  {
    EngagedCountPositive(recent, db.engagements, db.users[i]);
  }

  lemma {:induction false} EngagedEverywhere(posts: seq<Post>, engagements: seq<Engagement>, user: User)
    requires forall j :: 0 <= j < |posts| && posts[j].platform == user.platform ==>
      HasEngagement(engagements, posts[j].id, user.username)
    ensures EngagedCount(posts, engagements, user) == PostCount(posts, user.platform)
  {
    if posts != [] {
      forall j | 0 <= j < |posts[1..]| && posts[1..][j].platform == user.platform
        ensures HasEngagement(engagements, posts[1..][j].id, user.username)
      {
        assert posts[1..][j] == posts[j + 1];
      }
      EngagedEverywhere(posts[1..], engagements, user);
    }
  }

  lemma FoundRecordIsRead(db: Db, postId: string, username: string)
    requires HasEngagement(db.engagements, postId, username)
    ensures username in EngagedNames(db, postId)
  {
    var records := EngagementsOf(db.engagements, postId);
    var i :| 0 <= i < |db.engagements| && db.engagements[i].postId == postId && db.engagements[i].username == username;
    var e := db.engagements[i];
    assert e in db.engagements && OfPost(postId)(e);
    var j :| 0 <= j < |records| && records[j] == e;
    assert EngagedNames(db, postId)[j] == username;
  }

  lemma ReadRecordIsFound(db: Db, postId: string, username: string)
    requires username in EngagedNames(db, postId)
    ensures HasEngagement(db.engagements, postId, username)
  {
    var records := EngagementsOf(db.engagements, postId);
    var j :| 0 <= j < |records| && EngagedNames(db, postId)[j] == username;
    var e := records[j];
    assert e in records;
    var i :| 0 <= i < |db.engagements| && db.engagements[i] == e;
    assert db.engagements[i].postId == postId && db.engagements[i].username == username;
  }

  /** The engagement records found by name and post are exactly those the analysis of the post reads. */
  lemma HasEngagementIffEngagedName(db: Db, postId: string, username: string)
    ensures HasEngagement(db.engagements, postId, username) <==> username in EngagedNames(db, postId)
  {
    if HasEngagement(db.engagements, postId, username) {
      FoundRecordIsRead(db, postId, username);
    }
    if username in EngagedNames(db, postId) {
      ReadRecordIsFound(db, postId, username);
    }
  }

  /**
   The weekly count agrees with the per-post analysis: for a roster entry, a post of its
   platform counts exactly when the analysis of that post lists the entry as engaged.
   */
  lemma WeeklyAgreesWithAnalysis(db: Db, post: Post, user: User)
    requires user in UsersOn(db.users, user.platform)
    ensures HasEngagement(db.engagements, post.id, user.username) <==>
      user.username in Reconciler.Reconcile(Roster(db, user.platform), EngagedNames(db, post.id)).engagedUsers
  {
    HasEngagementIffEngagedName(db, post.id, user.username);
    var onPlatform := UsersOn(db.users, user.platform);
    var k :| 0 <= k < |onPlatform| && onPlatform[k] == user;
    assert Roster(db, user.platform)[k] == user.username;
    Reconciler.ReconcileMembership(Roster(db, user.platform), EngagedNames(db, post.id), user.username);
  }

  /** The nested loops of `get_weekly_report` for one user: count the platform's posts and the engaged ones. */
  method CountPosts(posts: seq<Post>, engagements: seq<Engagement>, user: User) returns (engaged: nat, total: nat)
    ensures engaged == EngagedCount(posts, engagements, user)
    ensures total == PostCount(posts, user.platform)
  {
    engaged, total := 0, 0;
    var j := 0;
    while j < |posts|
      invariant 0 <= j <= |posts|
      invariant engaged == EngagedCount(posts[..j], engagements, user)
      invariant total == PostCount(posts[..j], user.platform)
    {
      var post := posts[j];
      assert posts[..j + 1] == posts[..j] + [post];
      EngagedCountAppend(posts[..j], [post], engagements, user);
      assert [post][1..] == [];
      if post.platform == user.platform {
        total := total + 1;
        if HasEngagement(engagements, post.id, user.username) {
          engaged := engaged + 1;
        }
      }
      j := j + 1;
    }
    assert posts[..j] == posts;
  }

  /** `get_weekly_report`: one row per roster entry, then the summary. */
  method BuildWeeklyReport(recent: seq<Post>, db: Db) returns (r: Report)
    ensures r == WeeklyReport(recent, db)
  {
    var rows: seq<UserRow> := [];
    var active := 0;
    var i := 0;
    while i < |db.users|
      invariant 0 <= i <= |db.users|
      invariant |rows| == i
      invariant forall k :: 0 <= k < i ==> rows[k] == Row(recent, db.engagements, db.users[k])
      invariant active == ActiveCount(rows)
    {
      var user := db.users[i];
      var engaged, total := CountPosts(recent, db.engagements, user);
      var rate := if total > 0 then (engaged as real) / (total as real) * 100.0 else 0.0;
      var row := UserRow(user.username, user.platform, engaged, total, rate);
      assert row == Row(recent, db.engagements, user);
      ActiveCountAppend(rows, [row]);
      assert [row][1..] == [];
      if engaged > 0 {
        active := active + 1;
      }
      rows := rows + [row];
      i := i + 1;
    }
    assert rows == Rows(recent, db.engagements, db.users);
    r := Report(rows, Summary(|db.users|, |recent|, active));
  }
}
