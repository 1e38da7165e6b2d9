/**
 * Likes and the counter kept beside them (src/api/src/videos/handlers.rs), with the
 * deletion of accounts, whose foreign keys drop like rows without touching the counter
 * (src/worker/src/account_cleanup.rs).
 */
module Likes {
  import opened Common

  /** Like rows are (user, video) pairs: that pair is the table's primary key. */
  datatype Db = Db(users: set<int>, owners: map<int, int>, counts: map<int, int>, likes: set<(int, int)>)

  /** Transactions, one at a time. `shown` says whether the video is published and
      visible when a handler looks it up. */
  datatype Event =
    | Join(user: int)
    | Post(user: int, video: int)
    | Like(user: int, video: int, shown: bool)
    | Unlike(user: int, video: int, shown: bool)
    | DeleteUser(user: int)

  predicate Enabled(db: Db, ev: Event) {
    match ev
    case Post(user, video) => user in db.users && video !in db.owners
    case Join(user) => user !in db.users
    case _ => true
  }

  function Liked(db: Db, user: int, video: int): Db
    requires video in db.counts
  {
    if (user, video) in db.likes then db
    else db.(likes := db.likes + {(user, video)}, counts := db.counts[video := db.counts[video] + 1])
  }

  function Decremented(count: int): int {
    if count > 0 then count - 1 else 0
  }

  function Unliked(db: Db, user: int, video: int): Db
    requires video in db.counts
  {
    if (user, video) !in db.likes then db
    else db.(likes := db.likes - {(user, video)}, counts := db.counts[video := Decremented(db.counts[video])])
  }

  /** The account's videos go, and every like it gave or its videos received. */
  function WithoutUser(db: Db, user: int): Db {
    var owned := set video | video in db.owners && db.owners[video] == user;
    Db(db.users - {user},
       db.owners - owned,
       db.counts - owned,
       set like | like in db.likes && like.0 != user && like.1 !in owned)
  }

  /** A like of an account that no longer exists violates the foreign key. */
  function Step(db: Db, ev: Event): Db {
    match ev
    case Join(user) => db.(users := db.users + {user})
    case Post(user, video) => db.(owners := db.owners[video := user], counts := db.counts[video := 0])
    case Like(user, video, shown) =>
      if shown && video in db.counts && user in db.users then Liked(db, user, video) else db
    case Unlike(user, video, shown) =>
      if shown && video in db.counts then Unliked(db, user, video) else db
    case DeleteUser(user) => WithoutUser(db, user)
  }

  const EMPTY := Db({}, map[], map[], {})

  ghost predicate Run(run: seq<Db>, events: seq<Event>) {
    && |run| == |events| + 1
    && run[0] == EMPTY
    && (forall i | 0 <= i < |events| :: Enabled(run[i], events[i]) && run[i + 1] == Step(run[i], events[i]))
  }

  function LikesOf(db: Db, video: int): set<(int, int)> {
    set like | like in db.likes && like.1 == video
  }

  /** How many likes of the video were dropped with the accounts that gave them. */
  ghost function Lost(run: seq<Db>, events: seq<Event>, video: int, n: nat): (lost: nat)
    requires |run| == |events| + 1 && n <= |events|
  {
    if n == 0 || video !in run[n].counts then 0
    else
      Lost(run, events, video, n - 1) + LostNow(run[n - 1], events[n - 1], video)
  }

  /** The keys of the tables: a like's user and video exist, and a video's owner. */
  ghost predicate KeysExist(db: Db) {
    && db.owners.Keys == db.counts.Keys
    && (forall video | video in db.owners :: db.owners[video] in db.users)
    && (forall like | like in db.likes :: like.0 in db.users && like.1 in db.counts)
  }

  lemma LikesOfAfter(db: Db, ev: Event, video: int)
    requires KeysExist(db) && Enabled(db, ev) && video in Step(db, ev).counts
    ensures LikesOf(Step(db, ev), video) == (
              match ev {
                case Like(user, _, _) => LikesOf(db, video) + if ev.video == video && Step(db, ev).likes != db.likes
                      then {(user, video)} else {}
                case Unlike(user, _, _) => LikesOf(db, video) - if ev.video == video && Step(db, ev).likes != db.likes
                      then {(user, video)} else {}
                case DeleteUser(user) => LikesOf(db, video) - {(user, video)}
                case _ => LikesOf(db, video)
              })
  {
  }

  ghost predicate Counted(db: Db, video: int, lost: int) {
    video in db.counts ==> db.counts[video] == |LikesOf(db, video)| + lost
  }

  ghost function LostNow(db: Db, ev: Event, video: int): nat {
    if ev.DeleteUser? && (ev.user, video) in db.likes then 1 else 0
  }

  /** Deleting an account takes its own videos and likes and the likes its videos received, and
      nothing of anyone else. */
  lemma DeletionTakesItsOwn(db: Db, user: int)
    requires KeysExist(db)
    ensures var after := WithoutUser(db, user);
            && after.users == db.users - {user}
            && (forall video :: video in after.owners <==> video in db.owners && db.owners[video] != user)
            && (forall video | video in after.owners ::
                  after.owners[video] == db.owners[video] && video in after.counts
                  && after.counts[video] == db.counts[video])
            && (forall u, video :: (u, video) in after.likes <==>
                  (u, video) in db.likes && u != user && db.owners[video] != user)
  {
  }

  lemma StepKeepsKeys(db: Db, ev: Event)
    requires KeysExist(db) && Enabled(db, ev)
    ensures KeysExist(Step(db, ev))
  {
  }

  lemma LikeCounts(db: Db, user: int, video: int, lost: nat)
    requires video in db.counts && Counted(db, video, lost)
    ensures Counted(Liked(db, user, video), video, lost)
  {
    if (user, video) !in db.likes {
      assert LikesOf(Liked(db, user, video), video) == LikesOf(db, video) + {(user, video)};
    }
  }

  lemma UnlikeCounts(db: Db, user: int, video: int, lost: nat)
    requires video in db.counts && Counted(db, video, lost)
    ensures Counted(Unliked(db, user, video), video, lost)
  {
    if (user, video) in db.likes {
      assert (user, video) in LikesOf(db, video);
      assert LikesOf(Unliked(db, user, video), video) == LikesOf(db, video) - {(user, video)};
    }
  }

  lemma DeletionCounts(db: Db, user: int, video: int, lost: nat)
    requires KeysExist(db) && video in WithoutUser(db, user).counts && Counted(db, video, lost)
    ensures Counted(WithoutUser(db, user), video, lost + LostNow(db, DeleteUser(user), video))
  {
    LikesOfAfter(db, DeleteUser(user), video);
    if (user, video) in db.likes {
      assert (user, video) in LikesOf(db, video);
    } else {
      assert LikesOf(db, video) - {(user, video)} == LikesOf(db, video);
    }
  }

  lemma StepCounts(db: Db, ev: Event, video: int, lost: nat)
    requires KeysExist(db) && Enabled(db, ev) && Counted(db, video, lost)
    requires video in db.counts && video in Step(db, ev).counts
    ensures Counted(Step(db, ev), video, lost + LostNow(db, ev, video))
  {
    match ev
    case DeleteUser(user) => DeletionCounts(db, user, video, lost);
    case Like(user, v, shown) =>
      if v == video {
        LikeCounts(db, user, video, lost);
      } else {
        assert LikesOf(Step(db, ev), video) == LikesOf(db, video);
      }
    case Unlike(user, v, shown) =>
      if v == video {
        UnlikeCounts(db, user, video, lost);
      } else {
        assert LikesOf(Step(db, ev), video) == LikesOf(db, video);
      }
    case _ => assert LikesOf(Step(db, ev), video) == LikesOf(db, video);
  }

  /** The counter is the number of like rows plus the likes lost with their accounts, so
      the two agree exactly when no liker of the video has been deleted. */
  lemma {:induction false} CountIsLikesPlusLost(run: seq<Db>, events: seq<Event>, video: int, n: nat)
    requires Run(run, events) && n < |run|
    ensures KeysExist(run[n])
    ensures video in run[n].counts ==> run[n].counts[video] == |LikesOf(run[n], video)| + Lost(run, events, video, n)
  {
    if n > 0 {
      var db, ev := run[n - 1], events[n - 1];
      CountIsLikesPlusLost(run, events, video, n - 1);
      assert Enabled(db, ev) && run[n] == Step(db, ev);
      StepKeepsKeys(db, ev);
      if video in run[n].counts {
        if video in db.counts {
          StepCounts(db, ev, video, Lost(run, events, video, n - 1));
        } else {
          LikesOfAfter(db, ev, video);
          assert LikesOf(db, video) == {};
        }
      }
    }
  }

  /** A row that is deleted was counted: the decrement never meets a zero. */
  lemma UnlikeDecrements(run: seq<Db>, events: seq<Event>, n: nat, user: int, video: int)
    requires Run(run, events) && n < |run| && video in run[n].counts && (user, video) in run[n].likes
    ensures run[n].counts[video] > 0
    ensures Unliked(run[n], user, video).counts[video] == run[n].counts[video] - 1
  {
    CountIsLikesPlusLost(run, events, video, n);
    assert (user, video) in LikesOf(run[n], video);
  }

  /** Liking and unliking are switches: repeating either changes nothing, and an unlike
      takes back exactly what a first like did. */
  lemma SwitchesAreIdempotent(run: seq<Db>, events: seq<Event>, n: nat, user: int, video: int)
    requires Run(run, events) && n < |run| && video in run[n].counts
    ensures var liked := Liked(run[n], user, video);
            && Liked(liked, user, video) == liked
            && Unliked(Unliked(run[n], user, video), user, video) == Unliked(run[n], user, video)
            && Unliked(liked, user, video) == Unliked(run[n], user, video)
            && ((user, video) in run[n].likes ==> Liked(Unliked(run[n], user, video), user, video) == run[n])
  {
    var db := run[n];
    CountIsLikesPlusLost(run, events, video, n);
    if (user, video) in db.likes {
      UnlikeDecrements(run, events, n, user, video);
      assert db.likes - {(user, video)} + {(user, video)} == db.likes;
    } else {
      assert db.likes + {(user, video)} - {(user, video)} == db.likes;
    }
  }

  // ---------------------------------------------------------------- the handlers

  class LikeStore {
    var users: set<int>
    var owners: map<int, int>
    var counts: map<int, int>
    var likes: set<(int, int)>

    ghost function Tables(): Db
      reads this
    {
      Db(users, owners, counts, likes)
    }

    constructor ()
      ensures Tables() == EMPTY
    {
      users, owners, counts, likes := {}, map[], map[], {};
    }

    method InsertLikeIfMissing(user: int, video: int) returns (inserted: bool)
      modifies this`likes
      ensures inserted == ((user, video) !in old(likes))
      ensures likes == old(likes) + {(user, video)}
    {
      inserted := (user, video) !in likes;
      likes := likes + {(user, video)};
    }

    /** Answers the counter after the like, or nothing if the video is not found or the
        account is gone. */
    method SetLike(user: int, video: int, shown: bool) returns (count: Option<int>)
      modifies this
      ensures Tables() == Step(old(Tables()), Like(user, video, shown))
      ensures count.Some? <==> shown && video in counts && user in users
      ensures count.Some? ==> count.value == counts[video] && (user, video) in likes
      ensures count.None? ==> Tables() == old(Tables())
    {
      if !shown || video !in counts || user !in users {
        return None;
      }
      var inserted := InsertLikeIfMissing(user, video);
      if inserted {
        counts := counts[video := counts[video] + 1];
      } else {
        assert likes == old(likes);
      }
      return Some(counts[video]);
    }

    method UnsetLike(user: int, video: int, shown: bool) returns (count: Option<int>)
      modifies this
      ensures Tables() == Step(old(Tables()), Unlike(user, video, shown))
      ensures count.Some? <==> shown && video in counts
      ensures count.Some? ==> count.value == counts[video] && (user, video) !in likes
      ensures count.None? ==> Tables() == old(Tables())
    {
      if !shown || video !in counts {
        return None;
      }
      if (user, video) in likes {
        likes := likes - {(user, video)};
        counts := counts[video := if counts[video] > 0 then counts[video] - 1 else 0];
      }
      return Some(counts[video]);
    }
  }
}
