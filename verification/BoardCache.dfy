/**
 The read-through board cache run serially: the cached reads answer exactly what uncached reads would,
 after any sequence of writes. Times are in milliseconds.
 */
module BoardCache {
  import opened Prelude
  import opened BoardViews
  import LikeCounter

  const CACHE_TTL_MS: nat := 120_000

  datatype Entry = Entry(value: View, expiresAt: nat)

  datatype Result<+T> = Ok(value: T) | Invalid | NotFound | NotMember | NotAuthor

  datatype Event = PostCreated(post: nat) | CommentCreated(comment: nat)

  /** Who belongs to which building. */
  type Members = set<(nat, nat)>

  // ---------------------------------------------------------------- what reads should answer

  /** The detail read with no cache at all. */
  function ShowPost(db: Db, members: Members, user: nat, post: nat): Result<View> {
    var row := FindById(db.posts, post);
    if row.None? then NotFound
    else if (user, row.value.building) !in members then NotMember
    else Ok(ViewOf(db, DetailKey(post)))
  }

  function ShowList(db: Db, members: Members, user: nat, building: nat): Result<View> {
    if (user, building) !in members then NotMember else Ok(ViewOf(db, ListKey(building)))
  }

  // ---------------------------------------------------------------- state

  class BoardDatabase {
    var posts: seq<PostRow>
    var comments: seq<CommentRow>
    /** Outbox rows of the board, in commit order. */
    var events: seq<Event>

    ghost function Contents(): Db
      reads this
    {
      Db(posts, comments)
    }

    constructor ()
      ensures Contents() == Db([], []) && events == []
    {
      posts, comments, events := [], [], [];
    }

    /** One transaction: the post and its outbox row. */
    method AddPost(row: PostRow) returns (id: nat)
      requires !row.deleted
      modifies this
      ensures id == old(|posts|)
      ensures Contents() == ApplyWrite(old(Contents()),
        CreatePost(row.building, row.author, row.category, row.title, row.content, row.createdAt))
      ensures events == old(events) + [PostCreated(id)]
    {
      id := |posts|;
      posts := posts + [row];
      events := events + [PostCreated(id)];
    }

    method AddComment(row: CommentRow) returns (id: nat)
      requires row.post < |posts| && !row.deleted
      modifies this
      ensures id == old(|comments|)
      ensures Contents() == ApplyWrite(old(Contents()), CreateComment(row.post, row.author, row.content, row.createdAt))
      ensures events == old(events) + [CommentCreated(id)]
    {
      id := |comments|;
      comments := comments + [row];
      events := events + [CommentCreated(id)];
    }

    method Update(id: nat, title: string, content: string)
      requires id < |posts|
      modifies this`posts
      ensures Contents() == ApplyWrite(old(Contents()), EditPost(id, title, content))
    {
      posts := posts[id := posts[id].(title := title, content := content)];
    }

    /** One transaction: the post's living comments, then the post. */
    method Delete(id: nat)
      requires id < |posts|
      modifies this`posts, this`comments
      ensures Contents() == ApplyWrite(old(Contents()), DeletePost(id))
    {
      var rows := comments;
      comments := seq(|rows|, i requires 0 <= i < |rows| =>
        if rows[i].post == id && !rows[i].deleted then rows[i].(deleted := true) else rows[i]);
      posts := posts[id := posts[id].(deleted := true)];
    }
  }

  class RedisBoardCache {
    var now: nat
    var entries: map<Key, Entry>

    constructor ()
      ensures entries == map[] && now == 0
    {
      now, entries := 0, map[];
    }

    /** An entry is there until its time has come. */
    function At(key: Key): (v: Option<View>)
      reads this
      ensures v.Some? <==> key in entries && entries[key].expiresAt > now
      ensures v.Some? ==> v.value == entries[key].value
    {
      if key in entries && now < entries[key].expiresAt then Some(entries[key].value) else None
    }

    method Get(key: Key) returns (cached: Option<View>)
      ensures cached == At(key)
    {
      cached := At(key);
    }

    method Set(key: Key, value: View)
      modifies this`entries
      ensures forall k :: At(k) == if k == key then Some(value) else old(At(k))
      ensures key in entries && entries[key].expiresAt == now + 120_000
    {
      entries := entries[key := Entry(value, now + CACHE_TTL_MS)];
    }

    method Invalidate(key: Key)
      modifies this`entries
      ensures forall k :: At(k) == if k == key then None else old(At(k))
    {
      entries := entries - {key};
    }
  }

  // ---------------------------------------------------------------- use cases

  class BoardUseCases {
    const data: BoardDatabase
    const cache: RedisBoardCache
    const likes: LikeCounter.RedisLikeCounter

    constructor (data: BoardDatabase, cache: RedisBoardCache, likes: LikeCounter.RedisLikeCounter)
      ensures this.data == data && this.cache == cache && this.likes == likes
    {
      this.data, this.cache, this.likes := data, cache, likes;
    }

    /** Every live entry is the view rebuilt from the database, and is about something that is there. */
    ghost predicate Coherent()
      reads data, cache
    {
      forall key :: cache.At(key).Some? ==>
        cache.At(key).value == ViewOf(data.Contents(), key) && Present(cache.At(key).value.first)
    }

    method GetPost(members: Members, user: nat, post: nat) returns (r: Result<View>)
      requires Coherent()
      modifies cache`entries
      ensures Coherent()
      ensures r == ShowPost(data.Contents(), members, user, post)
      ensures r.NotFound? <==> post >= |data.posts| || data.posts[post].deleted
      ensures !r.NotFound? ==> if (user, data.posts[post].building) in members
        then r.Ok? && ShowsDetail(r.value, data.Contents(), post) else r == NotMember
      ensures forall k :: cache.At(k) == if r.Ok? && k == DetailKey(post) then Some(r.value) else old(cache.At(k))
    {
      ViewsOnColumns(data.Contents(), DetailKey(post));
      var cached := cache.Get(DetailKey(post));
      if cached.Some? {
        if (user, cached.value.first.body.value.building) !in members { return NotMember; }
        return Ok(cached.value);
      }
      var row := FindById(data.posts, post);
      if row.None? { return NotFound; }
      if (user, row.value.building) !in members { return NotMember; }
      var comments := FindByPost(data.comments, post);
      var detail := View(BodyOf(ToBody(post, row)), Comments(ToComments(comments)));
      cache.Set(DetailKey(post), detail);
      return Ok(detail);
    }

    method ListPosts(members: Members, user: nat, building: nat) returns (r: Result<View>)
      requires Coherent()
      modifies cache`entries
      ensures Coherent()
      ensures r == ShowList(data.Contents(), members, user, building)
      ensures if (user, building) in members
        then r.Ok? && r.value.first.Summaries? && ShowsPosts(r.value.first.list, data.posts, building)
        else r == NotMember
      ensures forall k :: cache.At(k) == if r.Ok? && k == ListKey(building) then Some(r.value) else old(cache.At(k))
    {
      if (user, building) !in members { return NotMember; }
      ViewsOnColumns(data.Contents(), ListKey(building));
      var cached := cache.Get(ListKey(building));
      if cached.Some? { return Ok(cached.value); }
      var rows := FindByBuilding(data.posts, building);
      var summaries := View(Summaries(ToSummaries(rows)), Nothing);
      cache.Set(ListKey(building), summaries);
      return Ok(summaries);
    }

    method CreatePostUseCase(members: Members, user: nat, building: nat, category: Option<string>,
                             title: string, content: string, now: nat) returns (r: Result<nat>)
      requires Coherent()
      modifies data, cache`entries
      ensures Coherent()
      ensures r.Ok? <==> (user, building) in members && title != "" && content != ""
      ensures !r.Ok? ==> r == if (user, building) in members then Invalid else NotMember
      ensures r.Ok? ==>
        && data.posts == old(data.posts)
             + [PostRow(building, user, if category.Some? then category.value else "FREE", title, content, now, false)]
        && data.comments == old(data.comments)
      ensures r.Ok? ==> data.events == old(data.events) + [PostCreated(r.value)] && r.value == |old(data.posts)|
      ensures forall k :: cache.At(k) == if r.Ok? && k == ListKey(building) then None else old(cache.At(k))
      ensures !r.Ok? ==> data.Contents() == old(data.Contents()) && data.events == old(data.events)
    {
      if (user, building) !in members { return NotMember; }
      if title == "" || content == "" { return Invalid; }
      var kind := if category.Some? then category.value else "FREE";
      ghost var w := CreatePost(building, user, kind, title, content, now);
      Frame(w);
      var id := data.AddPost(PostRow(building, user, kind, title, content, now, false));
      cache.Invalidate(ListKey(building));
      return Ok(id);
    }

    method CreateCommentUseCase(members: Members, user: nat, post: nat, content: string, now: nat)
      returns (r: Result<nat>)
      requires Coherent()
      modifies data, cache`entries
      ensures Coherent()
      ensures r.NotFound? <==> post >= |old(data.posts)| || old(data.posts)[post].deleted
      ensures !r.NotFound? && !r.Ok? ==>
        r == if (user, old(data.posts)[post].building) in members then Invalid else NotMember
      ensures !r.NotFound? ==> (r.Ok? <==> (user, old(data.posts)[post].building) in members && content != "")
      ensures r.Ok? ==>
        data.posts == old(data.posts) && data.comments == old(data.comments) + [CommentRow(post, user, content, now, false)]
      ensures r.Ok? ==> data.events == old(data.events) + [CommentCreated(r.value)] && r.value == |old(data.comments)|
      ensures forall k :: cache.At(k) == if r.Ok? && k == DetailKey(post) then None else old(cache.At(k))
      ensures !r.Ok? ==> data.Contents() == old(data.Contents()) && data.events == old(data.events)
    {
      var row := FindById(data.posts, post);
      if row.None? { return NotFound; }
      if (user, row.value.building) !in members { return NotMember; }
      if content == "" { return Invalid; }
      Frame(CreateComment(post, user, content, now));
      var id := data.AddComment(CommentRow(post, user, content, now, false));
      cache.Invalidate(DetailKey(post));
      return Ok(id);
    }

    method UpdatePostUseCase(user: nat, post: nat, title: string, content: string) returns (r: Result<()>)
      requires Coherent()
      modifies data, cache`entries
      ensures Coherent() && data.events == old(data.events)
      ensures r == if post >= |old(data.posts)| || old(data.posts)[post].deleted then NotFound
                   else if old(data.posts)[post].author != user then NotAuthor
                   else if title == "" || content == "" then Invalid
                   else Ok(())
      ensures r.Ok? ==>
        && data.posts == old(data.posts)[post := old(data.posts)[post].(title := title, content := content)]
        && data.comments == old(data.comments)
      ensures forall k :: cache.At(k) == if r.Ok? && k in {DetailKey(post), ListKey(old(data.posts)[post].building)}
                                         then None else old(cache.At(k))
      ensures !r.Ok? ==> data.Contents() == old(data.Contents())
    {
      var row := FindById(data.posts, post);
      if row.None? { return NotFound; }
      if row.value.author != user { return NotAuthor; }
      if title == "" || content == "" { return Invalid; }
      Frame(EditPost(post, title, content));
      data.Update(post, title, content);
      cache.Invalidate(DetailKey(post));
      cache.Invalidate(ListKey(row.value.building));
      return Ok(());
    }

    method DeletePostUseCase(user: nat, post: nat) returns (r: Result<()>)
      requires Coherent()
      modifies data, cache`entries, likes`keys
      ensures Coherent() && data.events == old(data.events)
      ensures r == if post >= |old(data.posts)| || old(data.posts)[post].deleted then NotFound
                   else if old(data.posts)[post].author != user then NotAuthor
                   else Ok(())
      ensures r.Ok? ==>
        && data.posts == old(data.posts)[post := old(data.posts)[post].(deleted := true)]
        && data.comments == WithoutComments(old(data.comments), post)
      ensures r.Ok? ==> forall members, reader :: ShowPost(data.Contents(), members, reader, post) == NotFound
      ensures forall k :: cache.At(k) == if r.Ok? && k in {DetailKey(post), ListKey(old(data.posts)[post].building)}
                                         then None else old(cache.At(k))
      ensures r.Ok? ==> likes.At(post).None?
      ensures !r.Ok? ==> data.Contents() == old(data.Contents())
    {
      var row := FindById(data.posts, post);
      if row.None? { return NotFound; }
      if row.value.author != user { return NotAuthor; }
      Frame(DeletePost(post));
      data.Delete(post);
      cache.Invalidate(DetailKey(post));
      cache.Invalidate(ListKey(row.value.building));
      likes.Remove(post);
      return Ok(());
    }

    /** Deleting a write's keys is enough to stay coherent. */
    lemma Frame(w: Write)
      requires Coherent() && CanApply(data.Contents(), w)
      ensures forall key :: cache.At(key).Some? && key !in Invalidates(data.Contents(), w) ==>
        ViewOf(ApplyWrite(data.Contents(), w), key) == ViewOf(data.Contents(), key)
    {
      forall key | cache.At(key).Some? && key !in Invalidates(data.Contents(), w)
        ensures ViewOf(ApplyWrite(data.Contents(), w), key) == ViewOf(data.Contents(), key)
      {
        OtherViewsSame(data.Contents(), w, key);
      }
    }
  }
}
