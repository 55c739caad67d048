/**
 The like counter run serially: `RedisLikeCounter`, `PrismaPostLikeRepository`, `LikeCountReader` and the
 like and unlike use cases. The functions on entries in `RedisKeys` are the scripts that the interleaved
 model `LikeSystem` uses too.
 */
module LikeCounter {
  import opened Prelude
  import opened RedisKeys

  datatype LikeRow = LikeRow(post: nat, user: nat)

  function LikesOf(rows: set<LikeRow>, post: nat): set<LikeRow> {
    set r | r in rows && r.post == post
  }

  /** Some slot of the pipelined GETs asked for `post` and did not err. */
  predicate Answered(posts: seq<nat>, errors: set<nat>, post: nat) {
    exists i :: 0 <= i < |posts| && i !in errors && posts[i] == post
  }

  class RedisLikeCounter {
    var now: nat
    var keys: map<nat, Entry>

    constructor ()
      ensures keys == map[] && now == 0
    {
      now, keys := 0, map[];
    }

    /** What the server holds for `post` now. */
    function At(post: nat): (e: Option<Entry>)
      reads this
      ensures e.Some? <==> post in keys && keys[post].expiresAt > now
      ensures e.Some? ==> e.value == keys[post]
    {
      Live(if post in keys then Some(keys[post]) else None, now)
    }

    /** The Lua script behind `increment` and `decrement`. */
    method IncrBy(post: nat, delta: int)
      modifies this`keys
      ensures At(post) == match old(At(post))
        case None => None
        case Some(e) => Some(Entry(if e.value + delta < 0 then 0 else e.value + delta, e.expiresAt))
      ensures forall p :: p != post ==> At(p) == old(At(p))
    {
      if At(post).Some? {
        var v := keys[post].value + delta;
        keys := keys[post := keys[post].(value := v)];
        if v < 0 {
          keys := keys[post := keys[post].(value := 0)];
        }
      }
    }

    /** One GET per id; a slot that errs, like a missing key, is left out of the result. */
    method GetMany(posts: seq<nat>, errors: set<nat>) returns (result: map<nat, int>)
      ensures forall p :: p in result <==> Answered(posts, errors, p) && At(p).Some?
      ensures forall p :: p in result ==> result[p] == At(p).value.value
    {
      result := map[];
      for i := 0 to |posts|
        invariant forall p :: p in result ==> Answered(posts, errors, p) && At(p).Some? && result[p] == At(p).value.value
        invariant forall j :: 0 <= j < i && j !in errors && At(posts[j]).Some? ==> posts[j] in result
      {
        if i !in errors && At(posts[i]).Some? {
          result := result[posts[i] := keys[posts[i]].value];
        }
      }
    }

    method Remove(post: nat)
      modifies this`keys
      ensures At(post).None?
      ensures forall p :: p != post ==> At(p) == old(At(p))
    {
      keys := keys - {post};
    }

    method Backfill(entries: map<nat, int>)
      modifies this`keys
      ensures forall p ::
        At(p) == if p in entries && old(At(p)).None? then Some(Entry(entries[p], now + 3600)) else old(At(p))
    {
      var left := entries.Keys;
      while left != {}
        invariant left <= entries.Keys
        invariant forall p :: At(p) == if p in entries.Keys - left then SetNx(old(At(p)), entries[p], now)
                                       else old(At(p))
        decreases left
      {
        var p :| p in left;
        if At(p).None? {
          keys := keys[p := Entry(entries[p], now + COUNT_TTL_SEC)];
        }
        left := left - {p};
      }
    }
  }

  class PostLikes {
    var rows: set<LikeRow>
    /** LikeCreated rows put in the outbox, in commit order. */
    var events: seq<LikeRow>
    /** How many COUNT queries have run. */
    var queries: nat

    constructor ()
      ensures rows == {} && events == [] && queries == 0
    {
      rows, events, queries := {}, [], 0;
    }

    /** INSERT ... ON CONFLICT DO NOTHING: true exactly when a row was added. */
    method Like(post: nat, user: nat) returns (added: bool)
      modifies this`rows
      ensures added <==> LikeRow(post, user) !in old(rows)
      ensures rows == old(rows) + {LikeRow(post, user)}
    {
      added := LikeRow(post, user) !in rows;
      rows := rows + {LikeRow(post, user)};
    }

    method Unlike(post: nat, user: nat) returns (removed: bool)
      modifies this`rows
      ensures removed <==> LikeRow(post, user) in old(rows)
      ensures rows == old(rows) - {LikeRow(post, user)}
    {
      removed := LikeRow(post, user) in rows;
      rows := rows - {LikeRow(post, user)};
    }

    /** GROUP BY postId: posts without likes are left out. */
    method CountByPosts(posts: seq<nat>) returns (counts: map<nat, int>)
      modifies this`queries
      ensures forall p :: p in counts <==> p in posts && LikesOf(rows, p) != {}
      ensures forall p :: p in counts ==> counts[p] == |LikesOf(rows, p)|
      ensures queries == old(queries) + 1
    {
      counts := map p | p in posts && LikesOf(rows, p) != {} :: |LikesOf(rows, p)|;
      queries := queries + 1;
    }
  }

  /** Every counter key that is present equals its row count. */
  ghost predicate Agrees(counter: RedisLikeCounter, likes: PostLikes)
    reads counter, likes
  {
    forall p :: counter.At(p).Some? ==> counter.At(p).value.value == |LikesOf(likes.rows, p)|
  }

  /** The key after a counter step, made or lost. */
  function KeyAfterStep(key: Option<Entry>, delta: int, stepped: bool): Option<Entry> {
    if stepped then IncrByIfExists(key, delta) else key
  }

  /** What a read answers: the cached number, or the row count when the key is missing or its slot errs. */
  function ReadAfter(key: Option<Entry>, rows: nat, error: bool): int {
    if key.Some? && !error then key.value.value else rows
  }

  class LikeCountReader {
    const counter: RedisLikeCounter
    const likes: PostLikes

    constructor (counter: RedisLikeCounter, likes: PostLikes)
      ensures this.counter == counter && this.likes == likes
    {
      this.counter, this.likes := counter, likes;
    }

    /** The ids that `cached` does not answer, in order. */
    method Missed(posts: seq<nat>, cached: map<nat, int>) returns (missed: seq<nat>)
      ensures forall p :: p in missed <==> p in posts && p !in cached
    {
      missed := [];
      for i := 0 to |posts|
        invariant forall p :: p in missed <==> p in posts[..i] && p !in cached
      {
        if posts[i] !in cached {
          missed := missed + [posts[i]];
        }
      }
      assert posts[..|posts|] == posts;
    }

    /** COUNT the missed posts; the ones the query leaves out have no likes. */
    method Recount(missed: seq<nat>) returns (rebuilt: map<nat, int>)
      modifies likes`queries
      ensures forall p :: p in rebuilt <==> p in missed
      ensures forall p :: p in rebuilt ==> rebuilt[p] == |LikesOf(likes.rows, p)|
      ensures likes.queries == old(likes.queries) + 1
    {
      var counted := likes.CountByPosts(missed);
      rebuilt := map p | p in missed :: if p in counted then counted[p] else 0;
    }

    /**
     Counter first, COUNT for the misses, SET NX for what was counted. A post gets its cached number if a slot answered
     with it, and its row count otherwise; exactly the missing keys among the asked posts are filled, with row counts.
     So with agreeing keys every answer is the row count, errors and duplicates included, and the keys still agree.
     */
    method ReadMany(posts: seq<nat>, errors: set<nat>) returns (result: map<nat, int>)
      modifies counter`keys, likes`queries
      ensures forall p :: p in result <==> p in posts
      ensures forall p :: p in result ==>
        result[p] == if Answered(posts, errors, p) && old(counter.At(p)).Some? then old(counter.At(p)).value.value
                     else |LikesOf(likes.rows, p)|
      ensures forall p :: counter.At(p) == if p in posts && old(counter.At(p)).None?
        then Some(Entry(|LikesOf(likes.rows, p)|, counter.now + 3600)) else old(counter.At(p))
      ensures old(Agrees(counter, likes)) ==>
        Agrees(counter, likes) && forall p :: p in result ==> result[p] == |LikesOf(likes.rows, p)|
      ensures (forall i :: 0 <= i < |posts| ==> i !in errors && old(counter.At(posts[i])).Some?)
              ==> likes.queries == old(likes.queries)
      ensures likes.queries <= old(likes.queries) + 1
    {
      if |posts| == 0 { return map[]; }
      var cached := counter.GetMany(posts, errors);
      var missed := Missed(posts, cached);
      if |missed| == 0 {
        assert forall p :: p in posts ==> p in cached || p in missed;
        return cached;
      }
      assert missed[0] in posts && missed[0] !in cached;
      var rebuilt := Recount(missed);
      counter.Backfill(rebuilt);
      result := cached + rebuilt;
    }

    method ReadOne(post: nat, error: bool) returns (count: int)
      modifies counter`keys, likes`queries
      ensures var before, rows := old(counter.At(post)), |LikesOf(likes.rows, post)|;
        && count == ReadAfter(before, rows, error)
        && counter.At(post) == SetNx(before, rows, counter.now)
      ensures forall p :: p != post ==> counter.At(p) == old(counter.At(p))
      ensures old(Agrees(counter, likes)) ==> Agrees(counter, likes) && count == |LikesOf(likes.rows, post)|
    {
      var counts := ReadMany([post], if error then {0} else {});
      assert [post][0] == post;
      count := if post in counts then counts[post] else 0;
    }

    /** Asking the same again at once costs no COUNT. */
    method ReadTwice(posts: seq<nat>, errors: set<nat>)
      returns (first: map<nat, int>, second: map<nat, int>, afterFirst: nat)
      modifies counter`keys, likes`queries
      ensures first.Keys == second.Keys && likes.queries == afterFirst
      ensures errors == {} || old(Agrees(counter, likes)) ==> first == second
    {
      first := ReadMany(posts, errors);
      afterFirst := likes.queries;
      assert forall i :: 0 <= i < |posts| ==> posts[i] in posts;
      second := ReadMany(posts, {});
      assert first.Keys == second.Keys;
    }
  }

  /** What a like or unlike request is answered. */
  datatype Answer = PostNotFound | NotBuildingMember | Counted(liked: bool, count: int)

  class LikeUseCases {
    const counter: RedisLikeCounter
    const likes: PostLikes
    const reader: LikeCountReader

    constructor (counter: RedisLikeCounter, likes: PostLikes)
      ensures this.counter == counter && this.likes == likes
      ensures reader.counter == counter && reader.likes == likes
    {
      this.counter, this.likes := counter, likes;
      reader := new LikeCountReader(counter, likes);
    }

    /**
     `LikePostUseCase.execute`: the row and, on a real transition only, its LikeCreated event, then the counter step
     after the commit, whose failure is swallowed, then the read.
     */
    method LikePost(user: nat, post: nat, found: bool, member: bool, stepFails: bool, readErrs: bool)
      returns (answer: Answer)
      requires reader.counter == counter && reader.likes == likes
      modifies counter`keys, likes
      ensures !(found && member) ==>
        likes.rows == old(likes.rows) && likes.events == old(likes.events) && !answer.Counted?
        && forall p :: counter.At(p) == old(counter.At(p))
      ensures found && member ==>
        var isNew, rows := LikeRow(post, user) !in old(likes.rows), |LikesOf(likes.rows, post)|;
        var key := KeyAfterStep(old(counter.At(post)), 1, isNew && !stepFails);
        && likes.rows == old(likes.rows) + {LikeRow(post, user)}
        && likes.events == old(likes.events) + (if isNew then [LikeRow(post, user)] else [])
        && answer == Counted(true, ReadAfter(key, rows, readErrs))
        && counter.At(post) == SetNx(key, rows, counter.now)
        && forall p :: p != post ==> counter.At(p) == old(counter.At(p))
      ensures old(Agrees(counter, likes)) && !stepFails ==>
        Agrees(counter, likes) && (answer.Counted? ==> answer.count == |LikesOf(likes.rows, post)|)
    {
      if !found { return PostNotFound; }
      if !member { return NotBuildingMember; }
      ghost var before := likes.rows;
      var newlyLiked := likes.Like(post, user);
      if newlyLiked {
        likes.events := likes.events + [LikeRow(post, user)];
      }
      LikesAfterAdd(before, post, user);
      if newlyLiked && !stepFails {
        counter.IncrBy(post, 1);
      }
      var likeCount := reader.ReadOne(post, readErrs);
      answer := Counted(true, likeCount);
    }

    /** `UnlikePostUseCase.execute`. */
    method UnlikePost(user: nat, post: nat, found: bool, member: bool, stepFails: bool, readErrs: bool)
      returns (answer: Answer)
      requires reader.counter == counter && reader.likes == likes
      modifies counter`keys, likes
      ensures likes.events == old(likes.events)
      ensures !(found && member) ==>
        likes.rows == old(likes.rows) && !answer.Counted? && forall p :: counter.At(p) == old(counter.At(p))
      ensures found && member ==>
        var removed, rows := LikeRow(post, user) in old(likes.rows), |LikesOf(likes.rows, post)|;
        var key := KeyAfterStep(old(counter.At(post)), -1, removed && !stepFails);
        && likes.rows == old(likes.rows) - {LikeRow(post, user)}
        && answer == Counted(false, ReadAfter(key, rows, readErrs))
        && counter.At(post) == SetNx(key, rows, counter.now)
        && forall p :: p != post ==> counter.At(p) == old(counter.At(p))
      ensures old(Agrees(counter, likes)) && !stepFails ==>
        Agrees(counter, likes) && (answer.Counted? ==> answer.count == |LikesOf(likes.rows, post)|)
    {
      if !found { return PostNotFound; }
      if !member { return NotBuildingMember; }
      ghost var before := likes.rows;
      var removed := likes.Unlike(post, user);
      LikesAfterRemove(before, post, user);
      if removed && !stepFails {
        counter.IncrBy(post, -1);
      }
      var likeCount := reader.ReadOne(post, readErrs);
      answer := Counted(false, likeCount);
    }
  }

  /** One like more or none more, for its own post only. */
  lemma LikesAfterAdd(rows: set<LikeRow>, post: nat, user: nat)
    ensures var row := LikeRow(post, user);
      |LikesOf(rows + {row}, post)| == |LikesOf(rows, post)| + (if row in rows then 0 else 1)
    ensures forall p :: p != post ==> LikesOf(rows + {LikeRow(post, user)}, p) == LikesOf(rows, p)
  {
    var row := LikeRow(post, user);
    assert LikesOf(rows + {row}, post) == LikesOf(rows, post) + {row};
    if row in rows {
      assert rows + {row} == rows;
    }
    forall p | p != post ensures LikesOf(rows + {row}, p) == LikesOf(rows, p) {}
  }

  lemma LikesAfterRemove(rows: set<LikeRow>, post: nat, user: nat)
    ensures var row := LikeRow(post, user);
      |LikesOf(rows - {row}, post)| == |LikesOf(rows, post)| - (if row in rows then 1 else 0)
    ensures forall p :: p != post ==> LikesOf(rows - {LikeRow(post, user)}, p) == LikesOf(rows, p)
  {
    var row := LikeRow(post, user);
    assert LikesOf(rows - {row}, post) == LikesOf(rows, post) - {row};
    if row in rows {
      assert LikesOf(rows, post) == LikesOf(rows - {row}, post) + {row};
    }
    forall p | p != post ensures LikesOf(rows - {row}, p) == LikesOf(rows, p) {}
  }

  /** In a serial unlike the clamp cannot fire: the counter equals a row count that includes the removed row. */
  lemma ClampNeverFiresSerially(rows: set<LikeRow>, post: nat, user: nat, entry: Entry)
    requires LikeRow(post, user) in rows && entry.value == |LikesOf(rows, post)|
    ensures entry.value + -1 >= 0
    ensures IncrByIfExists(Some(entry), -1) == Some(Entry(|LikesOf(rows - {LikeRow(post, user)}, post)|, entry.expiresAt))
  {
    LikesAfterRemove(rows, post, user);
  }
}
