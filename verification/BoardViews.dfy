/** Board posts and comments as stored, the views the board shows of them, and which views each write can change. */
module BoardViews {
  import opened Prelude

  datatype PostRow = PostRow(building: nat, author: nat, category: string, title: string, content: string,
                             createdAt: nat, deleted: bool)

  datatype CommentRow = CommentRow(post: nat, author: nat, content: string, createdAt: nat, deleted: bool)

  /** Ids are positions; rows are never removed, only marked deleted. */
  datatype Db = Db(posts: seq<PostRow>, comments: seq<CommentRow>)

  // ---------------------------------------------------------------- queries

  datatype Stored<+R> = Stored(id: nat, row: R)

  /** Insertion into a list ordered by `before`. */
  function Insert<T>(xs: seq<T>, x: T, before: (T, T) -> bool): seq<T> {
    if xs == [] then [x]
    else if before(x, xs[0]) then [x] + xs
    else [xs[0]] + Insert(xs[1..], x, before)
  }

  function NewestFirst(): (Stored<PostRow>, Stored<PostRow>) -> bool {
    (x: Stored<PostRow>, y: Stored<PostRow>) => x.row.createdAt >= y.row.createdAt
  }

  function OldestFirst(): (Stored<CommentRow>, Stored<CommentRow>) -> bool {
    (x: Stored<CommentRow>, y: Stored<CommentRow>) => x.row.createdAt < y.row.createdAt
  }

  predicate Listed(row: PostRow, building: nat) { row.building == building && !row.deleted }

  predicate Shown(row: CommentRow, post: nat) { row.post == post && !row.deleted }

  /** `findByBuilding`: posts that are not deleted, newest first. */
  function FindByBuilding(posts: seq<PostRow>, building: nat): seq<Stored<PostRow>> {
    if posts == [] then []
    else
      var n := |posts| - 1;
      var rest := FindByBuilding(posts[..n], building);
      if Listed(posts[n], building) then Insert(rest, Stored(n, posts[n]), NewestFirst()) else rest
  }

  /** `findByPost`: comments that are not deleted, oldest first. */
  function FindByPost(comments: seq<CommentRow>, post: nat): seq<Stored<CommentRow>> {
    if comments == [] then []
    else
      var n := |comments| - 1;
      var rest := FindByPost(comments[..n], post);
      if Shown(comments[n], post) then Insert(rest, Stored(n, comments[n]), OldestFirst()) else rest
  }

  /** `findById`: a deleted post is not found. */
  function FindById(posts: seq<PostRow>, id: nat): Option<PostRow> {
    if id < |posts| && !posts[id].deleted then Some(posts[id]) else None
  }

  // ---------------------------------------------------------------- views

  datatype Summary = Summary(id: nat, category: string, title: string, author: nat)
  datatype Body = Body(id: nat, building: nat, category: string, title: string, content: string, author: nat)
  datatype CommentView = CommentView(id: nat, author: nat, content: string)

  datatype Key = ListKey(building: nat) | DetailKey(post: nat)

  /** What one query contributes to a view: a list needs one query, a detail two. */
  datatype Part = Summaries(list: seq<Summary>) | BodyOf(body: Option<Body>) | Comments(comments: seq<CommentView>) | Nothing

  datatype View = View(first: Part, second: Part)

  function ToSummaries(rows: seq<Stored<PostRow>>): seq<Summary> {
    seq(|rows|, i requires 0 <= i < |rows| =>
      Summary(rows[i].id, rows[i].row.category, rows[i].row.title, rows[i].row.author))
  }

  function ToComments(rows: seq<Stored<CommentRow>>): seq<CommentView> {
    seq(|rows|, i requires 0 <= i < |rows| => CommentView(rows[i].id, rows[i].row.author, rows[i].row.content))
  }

  function ToBody(id: nat, row: Option<PostRow>): Option<Body> {
    if row.None? then None
    else
      var r := row.value;
      Some(Body(id, r.building, r.category, r.title, r.content, r.author))
  }

  function First(db: Db, key: Key): Part {
    match key
    case ListKey(b) => Summaries(ToSummaries(FindByBuilding(db.posts, b)))
    case DetailKey(p) => BodyOf(ToBody(p, FindById(db.posts, p)))
  }

  function Second(db: Db, key: Key): Part {
    match key
    case ListKey(_) => Nothing
    case DetailKey(p) => Comments(ToComments(FindByPost(db.comments, p)))
  }

  function ViewOf(db: Db, key: Key): View { View(First(db, key), Second(db, key)) }

  /** There is something to show, and so to cache. */
  predicate Present(first: Part) { first != BodyOf(None) }

  // ---------------------------------------------------------------- what the queries return

  lemma {:induction false} InsertPermutes<T>(xs: seq<T>, x: T, before: (T, T) -> bool)
    ensures multiset(Insert(xs, x, before)) == multiset(xs) + multiset{x}
  {
    if xs != [] && !before(x, xs[0]) {
      InsertPermutes(xs[1..], x, before);
      assert xs == [xs[0]] + xs[1..];
    }
  }

  predicate Descending(rows: seq<Stored<PostRow>>) {
    forall i, j :: 0 <= i < j < |rows| ==> rows[i].row.createdAt >= rows[j].row.createdAt
  }

  predicate Ascending(rows: seq<Stored<CommentRow>>) {
    forall i, j :: 0 <= i < j < |rows| ==> rows[i].row.createdAt <= rows[j].row.createdAt
  }

  lemma {:induction false} InsertDescending(xs: seq<Stored<PostRow>>, x: Stored<PostRow>)
    requires Descending(xs)
    ensures Descending(Insert(xs, x, NewestFirst()))
  {
    if xs != [] && !NewestFirst()(x, xs[0]) {
      InsertDescending(xs[1..], x);
      InsertPermutes(xs[1..], x, NewestFirst());
      var rest := Insert(xs[1..], x, NewestFirst());
      forall j | 0 <= j < |rest| ensures xs[0].row.createdAt >= rest[j].row.createdAt {
        assert rest[j] in multiset(rest);
        assert rest[j] == x || rest[j] in xs[1..];
      }
    }
  }

  lemma {:induction false} InsertAscending(xs: seq<Stored<CommentRow>>, x: Stored<CommentRow>)
    requires Ascending(xs)
    ensures Ascending(Insert(xs, x, OldestFirst()))
  {
    if xs != [] && !OldestFirst()(x, xs[0]) {
      InsertAscending(xs[1..], x);
      InsertPermutes(xs[1..], x, OldestFirst());
      var rest := Insert(xs[1..], x, OldestFirst());
      forall j | 0 <= j < |rest| ensures xs[0].row.createdAt <= rest[j].row.createdAt {
        assert rest[j] in multiset(rest);
        assert rest[j] == x || rest[j] in xs[1..];
      }
    }
  }

  /** A list shows each of the building's posts that is not deleted once, and no other, newest first. */
  lemma {:induction false} ListShowsExactlyTheLiving(posts: seq<PostRow>, building: nat)
    ensures Descending(FindByBuilding(posts, building))
    ensures forall x :: multiset(FindByBuilding(posts, building))[x]
                     == if x.id < |posts| && x.row == posts[x.id] && Listed(x.row, building) then 1 else 0
  {
    if posts != [] {
      var n := |posts| - 1;
      ListShowsExactlyTheLiving(posts[..n], building);
      if Listed(posts[n], building) {
        var rest := FindByBuilding(posts[..n], building);
        InsertDescending(rest, Stored(n, posts[n]));
        InsertPermutes(rest, Stored(n, posts[n]), NewestFirst());
      }
    }
  }

  lemma {:induction false} DetailShowsExactlyTheLiving(comments: seq<CommentRow>, post: nat)
    ensures Ascending(FindByPost(comments, post))
    ensures forall x :: multiset(FindByPost(comments, post))[x]
                     == if x.id < |comments| && x.row == comments[x.id] && Shown(x.row, post) then 1 else 0
  {
    if comments != [] {
      var n := |comments| - 1;
      DetailShowsExactlyTheLiving(comments[..n], post);
      if Shown(comments[n], post) {
        var rest := FindByPost(comments[..n], post);
        InsertAscending(rest, Stored(n, comments[n]));
        InsertPermutes(rest, Stored(n, comments[n]), OldestFirst());
      }
    }
  }

  // ---------------------------------------------------------------- what the views show

  /** `list` shows each of the building's living posts once, as it is stored, and nothing else, newest first. */
  ghost predicate ShowsPosts(list: seq<Summary>, posts: seq<PostRow>, building: nat) {
    && (forall i :: 0 <= i < |list| ==>
          && list[i].id < |posts| && posts[list[i].id].building == building && !posts[list[i].id].deleted
          && list[i].category == posts[list[i].id].category && list[i].title == posts[list[i].id].title
          && list[i].author == posts[list[i].id].author)
    && (forall i, j :: 0 <= i < j < |list| ==>
          list[i].id != list[j].id && posts[list[i].id].createdAt >= posts[list[j].id].createdAt)
    && (forall p :: 0 <= p < |posts| && posts[p].building == building && !posts[p].deleted ==>
          exists i :: 0 <= i < |list| && list[i].id == p)
  }

  /** The same for the comments under a post, oldest first. */
  ghost predicate ShowsComments(list: seq<CommentView>, comments: seq<CommentRow>, post: nat) {
    && (forall i :: 0 <= i < |list| ==>
          && list[i].id < |comments| && comments[list[i].id].post == post && !comments[list[i].id].deleted
          && list[i].author == comments[list[i].id].author && list[i].content == comments[list[i].id].content)
    && (forall i, j :: 0 <= i < j < |list| ==>
          list[i].id != list[j].id && comments[list[i].id].createdAt <= comments[list[j].id].createdAt)
    && (forall c :: 0 <= c < |comments| && comments[c].post == post && !comments[c].deleted ==>
          exists i :: 0 <= i < |list| && list[i].id == c)
  }

  lemma OnceInSeq<T>(s: seq<T>, i: nat, j: nat)
    requires i < j < |s| && s[i] == s[j]
    ensures multiset(s)[s[i]] >= 2
  {
    assert s == s[..j] + s[j..];
    assert s[..j][i] == s[i] && s[j..][0] == s[j];
    assert multiset(s) == multiset(s[..j]) + multiset(s[j..]);
  }

  /** The query on row numbers: the rows it finds, each once, and all of them. */
  lemma ListRows(posts: seq<PostRow>, building: nat)
    ensures var rows := FindByBuilding(posts, building);
      && (forall i :: 0 <= i < |rows| ==>
            rows[i].id < |posts| && rows[i].row == posts[rows[i].id] && Listed(rows[i].row, building))
      && (forall i, j :: 0 <= i < j < |rows| ==> rows[i].id != rows[j].id)
      && (forall p :: 0 <= p < |posts| && Listed(posts[p], building) ==> exists i :: 0 <= i < |rows| && rows[i].id == p)
  {
    var rows := FindByBuilding(posts, building);
    ListShowsExactlyTheLiving(posts, building);
    forall i | 0 <= i < |rows|
      ensures rows[i].id < |posts| && rows[i].row == posts[rows[i].id] && Listed(rows[i].row, building)
    {
      assert rows[i] in multiset(rows);
    }
    forall i, j | 0 <= i < j < |rows| ensures rows[i].id != rows[j].id {
      if rows[i].id == rows[j].id { OnceInSeq(rows, i, j); }
    }
    forall p | 0 <= p < |posts| && Listed(posts[p], building) ensures exists i :: 0 <= i < |rows| && rows[i].id == p {
      assert Stored(p, posts[p]) in multiset(rows);
    }
  }

  lemma ListView(posts: seq<PostRow>, building: nat)
    ensures ShowsPosts(ToSummaries(FindByBuilding(posts, building)), posts, building)
  {
    var rows := FindByBuilding(posts, building);
    var list := ToSummaries(rows);
    ListRows(posts, building);
    ListShowsExactlyTheLiving(posts, building);
    assert forall i :: 0 <= i < |list| ==> list[i].id == rows[i].id;
    forall p | 0 <= p < |posts| && Listed(posts[p], building) ensures exists i :: 0 <= i < |list| && list[i].id == p {
      var i :| 0 <= i < |rows| && rows[i].id == p;
      assert list[i].id == p;
    }
  }

  /** The query on row numbers: the rows it finds, each once, and all of them. */
  lemma CommentsRows(comments: seq<CommentRow>, post: nat)
    ensures var rows := FindByPost(comments, post);
      && (forall i :: 0 <= i < |rows| ==>
            rows[i].id < |comments| && rows[i].row == comments[rows[i].id] && Shown(rows[i].row, post))
      && (forall i, j :: 0 <= i < j < |rows| ==> rows[i].id != rows[j].id)
      && (forall p :: 0 <= p < |comments| && Shown(comments[p], post) ==> exists i :: 0 <= i < |rows| && rows[i].id == p)
  {
    var rows := FindByPost(comments, post);
    DetailShowsExactlyTheLiving(comments, post);
    forall i | 0 <= i < |rows|
      ensures rows[i].id < |comments| && rows[i].row == comments[rows[i].id] && Shown(rows[i].row, post)
    {
      assert rows[i] in multiset(rows);
    }
    forall i, j | 0 <= i < j < |rows| ensures rows[i].id != rows[j].id {
      if rows[i].id == rows[j].id { OnceInSeq(rows, i, j); }
    }
    forall p | 0 <= p < |comments| && Shown(comments[p], post) ensures exists i :: 0 <= i < |rows| && rows[i].id == p {
      assert Stored(p, comments[p]) in multiset(rows);
    }
  }

  lemma CommentsView(comments: seq<CommentRow>, post: nat)
    ensures ShowsComments(ToComments(FindByPost(comments, post)), comments, post)
  {
    var rows := FindByPost(comments, post);
    var list := ToComments(rows);
    CommentsRows(comments, post);
    DetailShowsExactlyTheLiving(comments, post);
    assert forall i :: 0 <= i < |list| ==> list[i].id == rows[i].id;
    forall p | 0 <= p < |comments| && Shown(comments[p], post) ensures exists i :: 0 <= i < |list| && list[i].id == p {
      var i :| 0 <= i < |rows| && rows[i].id == p;
      assert list[i].id == p;
    }
  }

  /** `view` is the detail of a post that is there: its columns as stored, and its living comments. */
  ghost predicate ShowsDetail(view: View, db: Db, post: nat)
    requires post < |db.posts|
  {
    var row := db.posts[post];
    && !row.deleted
    && view.first == BodyOf(Some(Body(post, row.building, row.category, row.title, row.content, row.author)))
    && view.second.Comments? && ShowsComments(view.second.comments, db.comments, post)
  }

  /** What a view built from the database shows, on the columns: nothing of a deleted post. */
  lemma ViewsOnColumns(db: Db, key: Key)
    ensures match key
      case ListKey(b) =>
        var view := ViewOf(db, key);
        view.first.Summaries? && view.second == Nothing && ShowsPosts(view.first.list, db.posts, b)
      case DetailKey(p) =>
        if p < |db.posts| && !db.posts[p].deleted then ShowsDetail(ViewOf(db, key), db, p)
        else First(db, key) == BodyOf(None)
  {
    match key
    case ListKey(b) => ListView(db.posts, b);
    case DetailKey(p) => CommentsView(db.comments, p);
  }

  // ---------------------------------------------------------------- writes

  datatype Write =
    | CreatePost(building: nat, author: nat, category: string, title: string, content: string, at: nat)
    | CreateComment(post: nat, author: nat, content: string, at: nat)
    | EditPost(post: nat, title: string, content: string)
    | DeletePost(post: nat)

  /** Foreign keys hold. */
  predicate CanApply(db: Db, w: Write) {
    w.CreatePost? || w.post < |db.posts|
  }

  function WithoutComments(comments: seq<CommentRow>, post: nat): (r: seq<CommentRow>)
    ensures |r| == |comments|
    ensures forall i :: 0 <= i < |comments| ==>
      r[i] == if comments[i].post == post then comments[i].(deleted := true) else comments[i]
  {
    seq(|comments|, i requires 0 <= i < |comments| =>
      if comments[i].post == post then comments[i].(deleted := true) else comments[i])
  }

  function ApplyWrite(db: Db, w: Write): Db
    requires CanApply(db, w)
  {
    match w
    case CreatePost(b, author, category, title, content, at) =>
      db.(posts := db.posts + [PostRow(b, author, category, title, content, at, false)])
    case CreateComment(p, author, content, at) =>
      db.(comments := db.comments + [CommentRow(p, author, content, at, false)])
    case EditPost(p, title, content) =>
      db.(posts := db.posts[p := db.posts[p].(title := title, content := content)])
    case DeletePost(p) =>
      Db(db.posts[p := db.posts[p].(deleted := true)], WithoutComments(db.comments, p))
  }

  /** The cache keys that the use case behind a write deletes after it. */
  function Invalidates(db: Db, w: Write): set<Key>
    requires CanApply(db, w)
  {
    match w
    case CreatePost(b, _, _, _, _, _) => {ListKey(b)}
    case CreateComment(p, _, _, _) => {DetailKey(p)}
    case EditPost(p, _, _) => {DetailKey(p), ListKey(db.posts[p].building)}
    case DeletePost(p) => {DetailKey(p), ListKey(db.posts[p].building)}
  }

  /** Writes in turn; one that cannot be applied changes nothing. */
  function ApplyAll(db: Db, ws: seq<Write>): Db
    decreases |ws|
  {
    if ws == [] then db
    else
      var n := |ws| - 1;
      var before := ApplyAll(db, ws[..n]);
      if CanApply(before, ws[n]) then ApplyWrite(before, ws[n]) else before
  }

  /**
   Whatever is written, a post is gone from its own view from its deletion on, for good, and not before; it keeps its
   building, author, category and date, and its title and text are those of the last edit, if there was one.
   */
  lemma {:induction false} DeletedForGood(db: Db, ws: seq<Write>, p: nat)
    requires p < |db.posts| && !db.posts[p].deleted
    ensures var db' := ApplyAll(db, ws);
      && p < |db'.posts|
      && (First(db', DetailKey(p)) == BodyOf(None) <==> DeletePost(p) in ws)
      && db'.posts[p].building == db.posts[p].building && db'.posts[p].author == db.posts[p].author
      && db'.posts[p].category == db.posts[p].category && db'.posts[p].createdAt == db.posts[p].createdAt
      && (ws != [] && ws[|ws| - 1].EditPost? && ws[|ws| - 1].post == p ==>
            db'.posts[p].title == ws[|ws| - 1].title && db'.posts[p].content == ws[|ws| - 1].content)
      && (ws != [] && !(ws[|ws| - 1].EditPost? && ws[|ws| - 1].post == p) ==>
            var before := ApplyAll(db, ws[..|ws| - 1]);
            p < |before.posts| && db'.posts[p].title == before.posts[p].title
            && db'.posts[p].content == before.posts[p].content)
    decreases |ws|
  {
    if ws != [] {
      var n := |ws| - 1;
      DeletedForGood(db, ws[..n], p);
      assert ws == ws[..n] + [ws[n]];
    }
  }

  /** Lists depend on nothing but the posts they show. */
  lemma {:induction false} ListSame(posts: seq<PostRow>, posts': seq<PostRow>, building: nat)
    requires |posts| == |posts'|
    requires forall i :: 0 <= i < |posts| ==>
      posts[i] == posts'[i] || (!Listed(posts[i], building) && !Listed(posts'[i], building))
    ensures FindByBuilding(posts, building) == FindByBuilding(posts', building)
  {
    if posts != [] {
      ListSame(posts[..|posts| - 1], posts'[..|posts| - 1], building);
    }
  }

  lemma {:induction false} CommentsSame(comments: seq<CommentRow>, comments': seq<CommentRow>, post: nat)
    requires |comments| == |comments'|
    requires forall i :: 0 <= i < |comments| ==>
      comments[i] == comments'[i] || (!Shown(comments[i], post) && !Shown(comments'[i], post))
    ensures FindByPost(comments, post) == FindByPost(comments', post)
  {
    if comments != [] {
      CommentsSame(comments[..|comments| - 1], comments'[..|comments| - 1], post);
    }
  }

  /** A write changes no view whose key its use case does not delete, except the detail of the very post it creates. */
  lemma OtherViewsSame(db: Db, w: Write, key: Key)
    requires CanApply(db, w) && key !in Invalidates(db, w) && (key.DetailKey? ==> key.post < |db.posts|)
    ensures ViewOf(ApplyWrite(db, w), key) == ViewOf(db, key)
  {
    var db' := ApplyWrite(db, w);
    if w.CreatePost? {
      assert db'.posts[..|db.posts|] == db.posts;
    } else if w.CreateComment? {
      assert db'.comments[..|db.comments|] == db.comments;
    }
    if key.ListKey? && !w.CreatePost? {
      ListSame(db.posts, db'.posts, key.building);
    }
    if key.DetailKey? && !w.CreateComment? {
      CommentsSame(db.comments, db'.comments, key.post);
    }
  }
}
