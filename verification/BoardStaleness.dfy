/**
 The board cache under interleaving: writes, invalidations, loads and hits of any number of requests in any order.
 Every committed database state is kept as a version, so that "was true at some instant" can be said.
 A load reads the database once for a list and twice for a detail, and sets the cache some time later.
 */
module BoardStaleness {
  import opened BoardViews
  import opened BoardCache

  /** The database from time `at` until the next version. */
  datatype Version = Version(db: Db, at: nat)

  /** A view as read: its parts, the versions they come from, and when. */
  datatype Reading = Reading(view: View, v1: nat, readAt: nat, v2: nat, secondAt: nat)

  /** `dirty`: the key has been invalidated since the first read. */
  datatype Loader = Loader(key: Key, reading: Reading, complete: bool, dirty: bool, stored: bool)

  /** `late`: set by a loader that was dirty. */
  datatype Slot = Slot(reading: Reading, setAt: nat, late: bool)

  datatype Served = Served(key: Key, at: nat, slot: Slot)

  /** `owed`: keys whose view a committed write may have changed since they were last invalidated. */
  datatype State = State(now: nat, versions: seq<Version>, slots: map<Key, Slot>, owed: set<Key>,
                         loaders: seq<Loader>, served: seq<Served>)

  datatype Step =
    | Elapse(ms: nat)
    | Commit(w: Write)
    | Invalidate(key: Key)
    | BeginLoad(key: Key)
    | ReadSecond(l: nat)
    | Store(l: nat)
    | Hit(key: Key)

  const Empty := State(0, [Version(Db([], []), 0)], map[], {}, [], [])

  function Current(s: State): Db
    requires |s.versions| > 0
  {
    s.versions[|s.versions| - 1].db
  }

  predicate Live(s: State, key: Key) {
    key in s.slots && s.now < s.slots[key].setAt + CACHE_TTL_MS
  }

  predicate Enabled(s: State, step: Step) {
    && |s.versions| > 0
    && match step
       case Elapse(_) => true
       case Commit(w) => CanApply(Current(s), w)
       case Invalidate(_) => true
       case BeginLoad(key) => Present(First(Current(s), key))
       case ReadSecond(l) => l < |s.loaders| && !s.loaders[l].complete
       case Store(l) => l < |s.loaders| && s.loaders[l].complete && !s.loaders[l].stored
       case Hit(key) => Live(s, key)
  }

  function MarkDirty(loaders: seq<Loader>, key: Key): (r: seq<Loader>)
    ensures |r| == |loaders|
    ensures forall l :: 0 <= l < |loaders| ==>
      r[l] == if loaders[l].key == key then loaders[l].(dirty := true) else loaders[l]
  {
    seq(|loaders|, l requires 0 <= l < |loaders| =>
      if loaders[l].key == key then loaders[l].(dirty := true) else loaders[l])
  }

  function SlotOf(s: State, l: nat): Slot
    requires l < |s.loaders|
  {
    Slot(s.loaders[l].reading, s.now, s.loaders[l].dirty)
  }

  function Apply(s: State, step: Step): State
    requires Enabled(s, step)
  {
    match step
    case Elapse(ms) => s.(now := s.now + ms)
    case Commit(w) =>
      s.(versions := s.versions + [Version(ApplyWrite(Current(s), w), s.now)],
         owed := s.owed + Invalidates(Current(s), w))
    case Invalidate(key) =>
      s.(slots := s.slots - {key}, owed := s.owed - {key}, loaders := MarkDirty(s.loaders, key))
    case BeginLoad(key) =>
      var v := |s.versions| - 1;
      s.(loaders := s.loaders
           + [Loader(key, Reading(View(First(Current(s), key), Nothing), v, s.now, v, s.now), false, false, false)])
    case ReadSecond(l) =>
      var r := s.loaders[l].reading;
      var r' := Reading(r.view.(second := Second(Current(s), s.loaders[l].key)), r.v1, r.readAt, |s.versions| - 1, s.now);
      s.(loaders := s.loaders[l := s.loaders[l].(reading := r', complete := true)])
    case Store(l) =>
      s.(slots := s.slots[s.loaders[l].key := SlotOf(s, l)],
         loaders := s.loaders[l := s.loaders[l].(stored := true)],
         served := s.served + [Served(s.loaders[l].key, s.now, SlotOf(s, l))])
    case Hit(key) => s.(served := s.served + [Served(key, s.now, s.slots[key])])
  }

  function Next(s: State, step: Step): State {
    if Enabled(s, step) then Apply(s, step) else s
  }

  function Run(s: State, steps: seq<Step>): State
    decreases |steps|
  {
    if steps == [] then s else Run(Next(s, steps[0]), steps[1..])
  }

  // ---------------------------------------------------------------- invariant

  /** Version `v` was the database at time `t`. */
  ghost predicate CurrentAt(versions: seq<Version>, v: nat, t: nat) {
    && v < |versions| && versions[v].at <= t
    && (v + 1 < |versions| ==> t <= versions[v + 1].at)
  }

  /** Posts are never removed and never move to another building. */
  ghost predicate Extends(db: Db, db': Db) {
    && |db.posts| <= |db'.posts|
    && forall p :: 0 <= p < |db.posts| ==> db'.posts[p].building == db.posts[p].building
  }

  ghost predicate VersionsOk(s: State) {
    && |s.versions| > 0
    && s.versions[|s.versions| - 1].at <= s.now
    && (forall v :: 0 <= v < |s.versions| ==> Extends(s.versions[v].db, Current(s)))
  }

  ghost predicate ReadingOk(versions: seq<Version>, now: nat, key: Key, r: Reading, complete: bool) {
    && CurrentAt(versions, r.v1, r.readAt) && r.readAt <= now
    && r.view.first == First(versions[r.v1].db, key) && Present(r.view.first)
    && (complete ==>
          && CurrentAt(versions, r.v2, r.secondAt) && r.v1 <= r.v2 && r.readAt <= r.secondAt <= now
          && r.view.second == Second(versions[r.v2].db, key))
  }

  ghost predicate Fresh(db: Db, key: Key, view: View, complete: bool) {
    view.first == First(db, key) && (complete ==> view.second == Second(db, key))
  }

  ghost predicate LoaderOk(s: State, l: Loader)
    requires |s.versions| > 0
  {
    && ReadingOk(s.versions, s.now, l.key, l.reading, l.complete)
    && (l.key !in s.owed && !l.dirty ==> Fresh(Current(s), l.key, l.reading.view, l.complete))
  }

  ghost predicate SlotOk(s: State, key: Key)
    requires |s.versions| > 0 && key in s.slots
  {
    var slot := s.slots[key];
    && ReadingOk(s.versions, s.now, key, slot.reading, true)
    && slot.reading.secondAt <= slot.setAt <= s.now
    && (key !in s.owed && !slot.late ==> Fresh(Current(s), key, slot.reading.view, true))
  }

  ghost predicate ServedOk(s: State, x: Served) {
    && ReadingOk(s.versions, s.now, x.key, x.slot.reading, true)
    && x.slot.reading.secondAt <= x.slot.setAt <= x.at <= s.now
    && x.at < x.slot.setAt + CACHE_TTL_MS
  }

  ghost predicate Inv(s: State) {
    && VersionsOk(s)
    && (forall l :: 0 <= l < |s.loaders| ==> LoaderOk(s, s.loaders[l]))
    && (forall key :: key in s.slots ==> SlotOk(s, key))
    && (forall x :: 0 <= x < |s.served| ==> ServedOk(s, s.served[x]))
  }

  // ---------------------------------------------------------------- preservation

  lemma ReadingKept(versions: seq<Version>, now: nat, version: Version, now': nat, key: Key, r: Reading, complete: bool)
    requires ReadingOk(versions, now, key, r, complete) && now <= now' && now <= version.at
    ensures ReadingOk(versions, now', key, r, complete)
    ensures ReadingOk(versions + [version], now', key, r, complete)
  {
    assert forall v :: 0 <= v < |versions| ==> (versions + [version])[v] == versions[v];
  }

  lemma ExtendsStep(db: Db, w: Write)
    requires CanApply(db, w)
    ensures Extends(db, ApplyWrite(db, w))
  {
  }

  /** What was read as present is still a post of the database, deleted or not, in the same building. */
  lemma StillThere(s: State, key: Key, r: Reading, complete: bool)
    requires VersionsOk(s) && ReadingOk(s.versions, s.now, key, r, complete) && key.DetailKey?
    ensures key.post < |Current(s).posts| && r.view.first.BodyOf? && r.view.first.body.Some?
    ensures r.view.first.body.value.building == Current(s).posts[key.post].building
  {
    assert Extends(s.versions[r.v1].db, Current(s));
  }

  lemma FreshKept(s: State, w: Write, key: Key, r: Reading, complete: bool)
    requires VersionsOk(s) && CanApply(Current(s), w) && ReadingOk(s.versions, s.now, key, r, complete)
    requires key !in Invalidates(Current(s), w) && Fresh(Current(s), key, r.view, complete)
    ensures Fresh(ApplyWrite(Current(s), w), key, r.view, complete)
  {
    if key.DetailKey? {
      StillThere(s, key, r, complete);
    }
    OtherViewsSame(Current(s), w, key);
  }

  lemma CommitKept(s: State, w: Write)
    requires Inv(s) && CanApply(Current(s), w)
    ensures Inv(Apply(s, Commit(w)))
  {
    var s' := Apply(s, Commit(w));
    var version := s'.versions[|s.versions|];
    ExtendsStep(Current(s), w);
    forall v | 0 <= v < |s'.versions| ensures Extends(s'.versions[v].db, Current(s')) {
      if v < |s.versions| { assert Extends(s.versions[v].db, Current(s)); }
    }
    forall l | 0 <= l < |s'.loaders| ensures LoaderOk(s', s'.loaders[l]) {
      var x := s.loaders[l];
      assert LoaderOk(s, x);
      ReadingKept(s.versions, s.now, version, s.now, x.key, x.reading, x.complete);
      if x.key !in s'.owed && !x.dirty { FreshKept(s, w, x.key, x.reading, x.complete); }
    }
    forall key | key in s'.slots ensures SlotOk(s', key) {
      assert SlotOk(s, key);
      ReadingKept(s.versions, s.now, version, s.now, key, s.slots[key].reading, true);
      if key !in s'.owed && !s.slots[key].late { FreshKept(s, w, key, s.slots[key].reading, true); }
    }
    forall x | 0 <= x < |s'.served| ensures ServedOk(s', s'.served[x]) {
      assert ServedOk(s, s.served[x]);
      ReadingKept(s.versions, s.now, version, s.now, s.served[x].key, s.served[x].slot.reading, true);
    }
  }

  lemma ElapseKept(s: State, ms: nat)
    requires Inv(s)
    ensures Inv(Apply(s, Elapse(ms)))
  {
    var s' := Apply(s, Elapse(ms));
    forall l | 0 <= l < |s'.loaders| ensures LoaderOk(s', s'.loaders[l]) { LoaderAges(s, s', s.loaders[l]); }
    forall key | key in s'.slots ensures SlotOk(s', key) { SlotAges(s, s', key); }
    forall x | 0 <= x < |s'.served| ensures ServedOk(s', s'.served[x]) { ServedAges(s, s', s.served[x]); }
  }

  // Time that passes, and keys that are no longer owed, harm nothing.

  lemma LoaderAges(s: State, s': State, l: Loader)
    requires VersionsOk(s) && LoaderOk(s, l) && s'.versions == s.versions && s.now <= s'.now
    requires l.key in s'.owed <==> l.key in s.owed
    ensures LoaderOk(s', l)
  {
  }

  lemma SlotAges(s: State, s': State, key: Key)
    requires VersionsOk(s) && s'.versions == s.versions && s.now <= s'.now
    requires key in s.slots && SlotOk(s, key) && key in s'.slots && s'.slots[key] == s.slots[key]
    requires key in s'.owed <==> key in s.owed
    ensures SlotOk(s', key)
  {
  }

  lemma ServedAges(s: State, s': State, x: Served)
    requires ServedOk(s, x) && s'.versions == s.versions && s.now <= s'.now
    ensures ServedOk(s', x)
  {
  }

  lemma InvalidateLoader(s: State, key: Key, l: nat)
    requires |s.versions| > 0 && l < |s.loaders| && LoaderOk(s, s.loaders[l])
    ensures LoaderOk(Apply(s, Invalidate(key)), Apply(s, Invalidate(key)).loaders[l])
  {
  }

  lemma InvalidateKept(s: State, key: Key)
    requires Inv(s)
    ensures Inv(Apply(s, Invalidate(key)))
  {
    var s' := Apply(s, Invalidate(key));
    forall l | 0 <= l < |s'.loaders| ensures LoaderOk(s', s'.loaders[l]) { InvalidateLoader(s, key, l); }
    forall k | k in s'.slots ensures SlotOk(s', k) { SlotAges(s, s', k); }
    forall x | 0 <= x < |s'.served| ensures ServedOk(s', s'.served[x]) { ServedAges(s, s', s.served[x]); }
  }

  lemma BeginKept(s: State, key: Key)
    requires Inv(s) && Enabled(s, BeginLoad(key))
    ensures Inv(Apply(s, BeginLoad(key)))
  {
    var s' := Apply(s, BeginLoad(key));
    forall l | 0 <= l < |s'.loaders| ensures LoaderOk(s', s'.loaders[l]) {
      if l < |s.loaders| { assert LoaderOk(s, s.loaders[l]); }
    }
    Unmoved(s, s');
  }

  lemma SecondKept(s: State, l: nat)
    requires Inv(s) && Enabled(s, ReadSecond(l))
    ensures Inv(Apply(s, ReadSecond(l)))
  {
    var s' := Apply(s, ReadSecond(l));
    forall k | 0 <= k < |s'.loaders| ensures LoaderOk(s', s'.loaders[k]) { assert LoaderOk(s, s.loaders[k]); }
    Unmoved(s, s');
  }

  /** Loaders, entries and answers stay sound while no version, invalidation or time passes. */
  lemma Unmoved(s: State, s': State)
    requires Inv(s) && s'.versions == s.versions && s'.now == s.now && s'.owed == s.owed
    ensures VersionsOk(s')
    ensures forall key :: key in s'.slots && key in s.slots && s'.slots[key] == s.slots[key] ==> SlotOk(s', key)
    ensures forall x :: 0 <= x < |s.served| ==> ServedOk(s', s.served[x])
    ensures forall l :: 0 <= l < |s.loaders| ==> LoaderOk(s', s.loaders[l])
  {
    forall key | key in s'.slots && key in s.slots && s'.slots[key] == s.slots[key] ensures SlotOk(s', key) {
      assert SlotOk(s, key);
    }
    forall x | 0 <= x < |s.served| ensures ServedOk(s', s.served[x]) { assert ServedOk(s, s.served[x]); }
    forall l | 0 <= l < |s.loaders| ensures LoaderOk(s', s.loaders[l]) { assert LoaderOk(s, s.loaders[l]); }
  }

  /** What a loader that is done stores and returns. */
  lemma StoredOk(s: State, l: nat)
    requires Inv(s) && Enabled(s, Store(l))
    ensures var s' := Apply(s, Store(l));
      && SlotOk(s', s.loaders[l].key)
      && ServedOk(s', Served(s.loaders[l].key, s.now, SlotOf(s, l)))
      && LoaderOk(s', s.loaders[l].(stored := true))
  {
    assert LoaderOk(s, s.loaders[l]);
  }

  lemma StoreKept(s: State, l: nat)
    requires Inv(s) && Enabled(s, Store(l))
    ensures Inv(Apply(s, Store(l)))
  {
    var s' := Apply(s, Store(l));
    Unmoved(s, s');
    StoredOk(s, l);
  }

  lemma HitKept(s: State, key: Key)
    requires Inv(s) && Enabled(s, Hit(key))
    ensures Inv(Apply(s, Hit(key)))
  {
    var s' := Apply(s, Hit(key));
    Unmoved(s, s');
    assert SlotOk(s, key);
    assert ServedOk(s', Served(key, s.now, s.slots[key]));
  }

  lemma NextInv(s: State, step: Step)
    requires Inv(s)
    ensures Inv(Next(s, step))
  {
    if Enabled(s, step) {
      match step
      case Elapse(ms) => ElapseKept(s, ms);
      case Commit(w) => CommitKept(s, w);
      case Invalidate(key) => InvalidateKept(s, key);
      case BeginLoad(key) => BeginKept(s, key);
      case ReadSecond(l) => SecondKept(s, l);
      case Store(l) => StoreKept(s, l);
      case Hit(key) => HitKept(s, key);
    }
  }

  lemma {:induction false} RunInv(s: State, steps: seq<Step>)
    requires Inv(s)
    ensures Inv(Run(s, steps))
    decreases |steps|
  {
    if steps != [] {
      NextInv(s, steps[0]);
      RunInv(Next(s, steps[0]), steps[1..]);
    }
  }

  // ---------------------------------------------------------------- theorems

  /** The delay between a loader's first read and its SET. */
  function Delay(slot: Slot): int { slot.setAt - slot.reading.readAt }

  /** A list that was served was the true list at an instant less than 120 s and its loader's own delay ago. */
  lemma ServedListWasTrue(steps: seq<Step>, x: nat)
    requires x < |Run(Empty, steps).served| && Run(Empty, steps).served[x].key.ListKey?
    ensures var s := Run(Empty, steps);
      var served, r := s.served[x], s.served[x].slot.reading;
      && CurrentAt(s.versions, r.v1, r.readAt)
      && r.view == ViewOf(s.versions[r.v1].db, served.key)
      && served.at - 120_000 - Delay(served.slot) < r.readAt <= served.at
  {
    RunInv(Empty, steps);
    assert ServedOk(Run(Empty, steps), Run(Empty, steps).served[x]);
  }

  /** The whole of `view` was true at some version from `a` to `b`. */
  ghost predicate TrueBetween(versions: seq<Version>, key: Key, view: View, a: nat, b: nat)
    requires b < |versions|
  {
    exists v :: a <= v <= b && ViewOf(versions[v].db, key) == view
  }

  /** Write number `k` made version `k + 1`. */
  ghost predicate ChangesFirst(versions: seq<Version>, key: Key, k: nat)
    requires k + 1 < |versions|
  {
    First(versions[k].db, key) != First(versions[k + 1].db, key)
  }

  ghost predicate ChangesSecond(versions: seq<Version>, key: Key, k: nat)
    requires k + 1 < |versions|
  {
    Second(versions[k].db, key) != Second(versions[k + 1].db, key)
  }

  /** From version `a` to `b`, every write that changes the comments comes before every write that changes the post. */
  ghost predicate CommentsThenPost(versions: seq<Version>, key: Key, a: nat, b: nat)
    requires b < |versions|
  {
    forall i, j :: a <= i <= j < b ==> !(ChangesFirst(versions, key, i) && ChangesSecond(versions, key, j))
  }

  /** From version `a` to `b`, the post does not return to what it was at `a`, nor the comments from what they are at `b`. */
  ghost predicate NothingRecurs(versions: seq<Version>, key: Key, a: nat, b: nat)
    requires a <= b < |versions|
  {
    forall u, v :: a <= u <= v <= b ==>
      && (First(versions[v].db, key) == First(versions[a].db, key) ==>
            First(versions[u].db, key) == First(versions[a].db, key))
      && (Second(versions[u].db, key) == Second(versions[b].db, key) ==>
            Second(versions[v].db, key) == Second(versions[b].db, key))
  }

  /** The whole of `view` was true at some version, whenever that was. */
  ghost predicate TrueEver(versions: seq<Version>, key: Key, view: View) {
    exists v :: 0 <= v < |versions| && ViewOf(versions[v].db, key) == view
  }

  /** Parts that two versions have alike did not differ in between. */
  ghost predicate UnbrokenAt(versions: seq<Version>, key: Key, u: nat, v: nat, w: nat)
    requires u <= v <= w < |versions|
  {
    && (First(versions[u].db, key) == First(versions[w].db, key) ==>
          First(versions[v].db, key) == First(versions[u].db, key))
    && (Second(versions[u].db, key) == Second(versions[w].db, key) ==>
          Second(versions[v].db, key) == Second(versions[u].db, key))
  }

  /** Neither post nor comments ever return to what they once were. */
  ghost predicate NothingEverRecurs(versions: seq<Version>, key: Key) {
    forall u, v, w :: 0 <= u <= v <= w < |versions| ==> UnbrokenAt(versions, key, u, v, w)
  }

  /** If nothing recurs, a joined view that was ever true was true between its reads. */
  lemma EverIsBetween(versions: seq<Version>, key: Key, a: nat, b: nat)
    requires a <= b < |versions| && NothingEverRecurs(versions, key)
    requires TrueEver(versions, key, View(First(versions[a].db, key), Second(versions[b].db, key)))
    ensures TrueBetween(versions, key, View(First(versions[a].db, key), Second(versions[b].db, key)), a, b)
  {
    var view := View(First(versions[a].db, key), Second(versions[b].db, key));
    var v :| 0 <= v < |versions| && ViewOf(versions[v].db, key) == view;
    if v < a {
      assert UnbrokenAt(versions, key, v, a, b);
      assert ViewOf(versions[a].db, key) == view;
    } else if v > b {
      assert UnbrokenAt(versions, key, a, b, v);
      assert ViewOf(versions[b].db, key) == view;
    }
  }

  lemma NothingRecursThere(versions: seq<Version>, key: Key, a: nat, b: nat)
    requires a <= b < |versions| && NothingEverRecurs(versions, key)
    ensures NothingRecurs(versions, key, a, b)
  {
    forall u, v | a <= u <= v <= b
      ensures First(versions[v].db, key) == First(versions[a].db, key) ==>
        First(versions[u].db, key) == First(versions[a].db, key)
      ensures Second(versions[u].db, key) == Second(versions[b].db, key) ==>
        Second(versions[v].db, key) == Second(versions[b].db, key)
    {
      assert UnbrokenAt(versions, key, a, u, v) && UnbrokenAt(versions, key, u, v, b);
    }
  }

  /** The last version up to which the post stood still. */
  lemma {:induction false} PostStoodStill(versions: seq<Version>, key: Key, a: nat, b: nat) returns (v: nat)
    requires a <= b < |versions|
    ensures a <= v <= b && First(versions[v].db, key) == First(versions[a].db, key)
    ensures v == b || ChangesFirst(versions, key, v)
    decreases b - a
  {
    if a == b || ChangesFirst(versions, key, a) {
      v := a;
    } else {
      v := PostStoodStill(versions, key, a + 1, b);
    }
  }

  lemma {:induction false} CommentsStoodStill(versions: seq<Version>, key: Key, v: nat, b: nat)
    requires v <= b < |versions| && forall j :: v <= j < b ==> !ChangesSecond(versions, key, j)
    ensures Second(versions[v].db, key) == Second(versions[b].db, key)
    decreases b - v
  {
    if v < b {
      assert !ChangesSecond(versions, key, v);
      CommentsStoodStill(versions, key, v + 1, b);
    }
  }

  lemma OrderSuffices(versions: seq<Version>, key: Key, a: nat, b: nat)
    requires a <= b < |versions| && CommentsThenPost(versions, key, a, b)
    ensures TrueBetween(versions, key, View(First(versions[a].db, key), Second(versions[b].db, key)), a, b)
  {
    var v := PostStoodStill(versions, key, a, b);
    CommentsStoodStill(versions, key, v, b);
    assert ViewOf(versions[v].db, key) == View(First(versions[a].db, key), Second(versions[b].db, key));
  }

  lemma OrderNeeded(versions: seq<Version>, key: Key, a: nat, b: nat)
    requires a <= b < |versions| && NothingRecurs(versions, key, a, b)
    requires TrueBetween(versions, key, View(First(versions[a].db, key), Second(versions[b].db, key)), a, b)
    ensures CommentsThenPost(versions, key, a, b)
  {
    var v :| a <= v <= b && ViewOf(versions[v].db, key) == View(First(versions[a].db, key), Second(versions[b].db, key));
    forall i, j | a <= i <= j < b ensures !(ChangesFirst(versions, key, i) && ChangesSecond(versions, key, j)) {
      assert i < v ==> First(versions[i].db, key) == First(versions[i + 1].db, key) == First(versions[a].db, key);
      assert v <= j ==> Second(versions[j].db, key) == Second(versions[j + 1].db, key) == Second(versions[b].db, key);
    }
  }

  /**
   Each of a detail's two parts was true at such an instant. The whole was true between the two reads whenever the writes
   there changed the comments before the post, and, unless contents recur there, only then; and unless contents ever
   recur, that is also exactly when it was true at any time at all.
   */
  lemma ServedDetailWasTrue(steps: seq<Step>, x: nat)
    requires x < |Run(Empty, steps).served| && Run(Empty, steps).served[x].key.DetailKey?
    ensures var s := Run(Empty, steps);
      var served, key, r := s.served[x], s.served[x].key, s.served[x].slot.reading;
      && CurrentAt(s.versions, r.v1, r.readAt) && CurrentAt(s.versions, r.v2, r.secondAt) && r.v1 <= r.v2
      && served.at - 120_000 - Delay(served.slot) < r.readAt <= r.secondAt <= served.at
      && r.view == View(First(s.versions[r.v1].db, key), Second(s.versions[r.v2].db, key))
      && (CommentsThenPost(s.versions, key, r.v1, r.v2) ==> TrueBetween(s.versions, key, r.view, r.v1, r.v2))
      && (NothingRecurs(s.versions, key, r.v1, r.v2) ==>
            (TrueBetween(s.versions, key, r.view, r.v1, r.v2) <==> CommentsThenPost(s.versions, key, r.v1, r.v2)))
      && (NothingEverRecurs(s.versions, key) ==>
            (TrueEver(s.versions, key, r.view) <==> CommentsThenPost(s.versions, key, r.v1, r.v2)))
  {
    RunInv(Empty, steps);
    var s := Run(Empty, steps);
    assert ServedOk(s, s.served[x]);
    DetailTrueIff(s.versions, s.served[x].key, s.served[x].slot.reading.v1, s.served[x].slot.reading.v2);
  }

  lemma DetailTrueIff(versions: seq<Version>, key: Key, a: nat, b: nat)
    requires a <= b < |versions|
    ensures var view := View(First(versions[a].db, key), Second(versions[b].db, key));
      && (CommentsThenPost(versions, key, a, b) ==> TrueBetween(versions, key, view, a, b))
      && (NothingRecurs(versions, key, a, b) ==>
            (TrueBetween(versions, key, view, a, b) <==> CommentsThenPost(versions, key, a, b)))
      && (NothingEverRecurs(versions, key) ==> (TrueEver(versions, key, view) <==> CommentsThenPost(versions, key, a, b)))
  {
    var view := View(First(versions[a].db, key), Second(versions[b].db, key));
    if CommentsThenPost(versions, key, a, b) {
      OrderSuffices(versions, key, a, b);
    } else if NothingRecurs(versions, key, a, b) && TrueBetween(versions, key, view, a, b) {
      OrderNeeded(versions, key, a, b);
    }
    if NothingEverRecurs(versions, key) {
      NothingRecursThere(versions, key, a, b);
      if TrueEver(versions, key, view) {
        EverIsBetween(versions, key, a, b);
      }
    }
  }

  /** A cached view is the current one unless an invalidation is still owed, or its loader straddled one. */
  lemma StaleOnlyIfOwedOrLate(steps: seq<Step>, key: Key)
    requires key in Run(Empty, steps).slots
    ensures var s := Run(Empty, steps);
      |s.versions| > 0 && (key !in s.owed && !s.slots[key].late ==> s.slots[key].reading.view == ViewOf(Current(s), key))
  {
    RunInv(Empty, steps);
    assert SlotOk(Run(Empty, steps), key);
  }

  /** However stale, a detail names the building that the post is in, so membership is checked against the right one. */
  lemma StaleDetailGuardsItsBuilding(steps: seq<Step>, x: nat)
    requires x < |Run(Empty, steps).served| && Run(Empty, steps).served[x].key.DetailKey?
    ensures var s := Run(Empty, steps);
      var p, first := s.served[x].key.post, s.served[x].slot.reading.view.first;
      && |s.versions| > 0 && p < |Current(s).posts|
      && first.BodyOf? && first.body.Some? && first.body.value.building == Current(s).posts[p].building
  {
    RunInv(Empty, steps);
    var s := Run(Empty, steps);
    assert ServedOk(s, s.served[x]);
    StillThere(s, s.served[x].key, s.served[x].slot.reading, true);
  }

  /** The two reads straddle an edit and a comment: the old text with the new comment, which the post never showed. */
  const StraddlingLoad: seq<Step> := [
    Commit(CreatePost(1, 1, "FREE", "old", "text", 0)),
    BeginLoad(DetailKey(0)),
    Commit(EditPost(0, "new", "text")),
    Commit(CreateComment(0, 1, "hello", 0)),
    ReadSecond(0),
    Store(0)]

  lemma {:induction false} RunLast(s: State, steps: seq<Step>, k: nat)
    requires k < |steps|
    ensures Run(s, steps[..k + 1]) == Next(Run(s, steps[..k]), steps[k])
    decreases k
  {
    var t := steps[..k + 1];
    assert t[0] == steps[0] && t[1..] == steps[1..][..k];
    if k > 0 {
      assert steps[..k][1..] == steps[1..][..k - 1];
      RunLast(Next(s, steps[0]), steps[1..], k - 1);
    } else {
      assert Run(s, t) == Run(Next(s, steps[0]), t[1..]);
    }
  }

  lemma DetailThatNeverWas()
    ensures var s := Run(Empty, StraddlingLoad);
      && |s.served| == 1
      && forall v :: 0 <= v < |s.versions| ==>
           s.served[0].slot.reading.view != ViewOf(s.versions[v].db, DetailKey(0))
  {
    var row, comment := PostRow(1, 1, "FREE", "old", "text", 0, false), CommentRow(0, 1, "hello", 0, false);
    var db1, db2 := Db([row], []), Db([row.(title := "new")], []);
    var db3 := Db([row.(title := "new")], [comment]);
    var s3 := StraddleBegins(row, db1, db2);
    var s4 := StraddleGoesOn(s3, comment, db3);
    StraddleEnds(s4, First(db1, DetailKey(0)));
    var view := View(First(db1, DetailKey(0)), Second(db3, DetailKey(0)));
    FourViews(row, comment, view);
    var s := Run(Empty, StraddlingLoad);
    assert s.versions == [Version(Db([], []), 0), Version(db1, 0), Version(db2, 0), Version(db3, 0)];
    forall v | 0 <= v < |s.versions| ensures view != ViewOf(s.versions[v].db, DetailKey(0)) {
      assert v == 0 || v == 1 || v == 2 || v == 3;
    }
  }

  /** A text that no other version has, with a comment that the version with that text has not. */
  lemma FourViews(row: PostRow, comment: CommentRow, view: View)
    requires row.title == "old" && !row.deleted && comment.post == 0 && !comment.deleted
    requires view == View(First(Db([row], []), DetailKey(0)), Second(Db([], [comment]), DetailKey(0)))
    ensures view != ViewOf(Db([], []), DetailKey(0)) && view != ViewOf(Db([row], []), DetailKey(0))
    ensures forall comments :: view != ViewOf(Db([row.(title := "new")], comments), DetailKey(0))
  {
    assert FindByPost([comment], 0) == Insert([], Stored(0, comment), OldestFirst());
    assert |Second(Db([], [comment]), DetailKey(0)).comments| == 1;
    assert FindByPost([], 0) == [];
    assert row.title[0] != "new"[0];
  }

  /** One load of post 0 has made its first read. */
  ghost predicate HalfLoaded(s: State, first: Part) {
    && s.now == 0 && s.served == [] && |s.loaders| == 1
    && s.loaders[0].key == DetailKey(0) && !s.loaders[0].complete && !s.loaders[0].stored
    && s.loaders[0].reading.view.first == first
  }

  lemma StraddleBegins(row: PostRow, db1: Db, db2: Db) returns (s3: State)
    requires row == PostRow(1, 1, "FREE", "old", "text", 0, false)
    requires db1 == Db([row], []) && db2 == Db([row.(title := "new")], [])
    ensures s3 == Run(Empty, StraddlingLoad[..3])
    ensures s3.versions == [Version(Db([], []), 0), Version(db1, 0), Version(db2, 0)] && s3.now == 0
    ensures HalfLoaded(s3, First(db1, DetailKey(0)))
  {
    var s2 := StraddleReads(row, db1);
    s3 := Next(s2, StraddlingLoad[2]);
    assert [row][0 := row.(title := "new")] == [row.(title := "new")];
    assert Current(s3) == db2;
    RunLast(Empty, StraddlingLoad, 2);
  }

  /** The post is created and a load makes its first read. */
  lemma StraddleReads(row: PostRow, db1: Db) returns (s2: State)
    requires row == PostRow(1, 1, "FREE", "old", "text", 0, false) && db1 == Db([row], [])
    ensures s2 == Run(Empty, StraddlingLoad[..2])
    ensures s2.versions == [Version(Db([], []), 0), Version(db1, 0)] && s2.now == 0
    ensures HalfLoaded(s2, First(db1, DetailKey(0)))
  {
    assert StraddlingLoad[..0] == [];
    var s1 := Next(Empty, StraddlingLoad[0]);
    RunLast(Empty, StraddlingLoad, 0);
    var none: seq<PostRow> := [];
    assert Current(Empty) == Db([], []) && none + [row] == [row];
    assert Current(s1) == db1;
    s2 := Next(s1, StraddlingLoad[1]);
    RunLast(Empty, StraddlingLoad, 1);
  }

  lemma StraddleGoesOn(s3: State, comment: CommentRow, db3: Db) returns (s4: State)
    requires s3 == Run(Empty, StraddlingLoad[..3]) && |s3.versions| == 3 && s3.now == 0
    requires |Current(s3).posts| == 1 && Current(s3).comments == []
    requires db3 == Db(Current(s3).posts, [comment]) && comment == CommentRow(0, 1, "hello", 0, false)
    ensures s4 == Run(Empty, StraddlingLoad[..4])
    ensures s4 == s3.(versions := s3.versions + [Version(db3, 0)], owed := s4.owed)
  {
    s4 := Next(s3, StraddlingLoad[3]);
    RunLast(Empty, StraddlingLoad, 3);
    var none: seq<CommentRow> := [];
    assert none + [comment] == [comment];
    assert CanApply(Current(s3), StraddlingLoad[3].w);
    assert Current(s4) == db3;
  }

  lemma StraddleEnds(s4: State, first: Part)
    requires s4 == Run(Empty, StraddlingLoad[..4]) && |s4.versions| == 4 && HalfLoaded(s4, first)
    ensures var s := Run(Empty, StraddlingLoad);
      && s.versions == s4.versions && |s.served| == 1
      && s.served[0].slot.reading.view == View(first, Second(Current(s4), DetailKey(0)))
  {
    RunLast(Empty, StraddlingLoad, 4);
    RunLast(Empty, StraddlingLoad, 5);
    assert StraddlingLoad[..6] == StraddlingLoad;
    TwoLast(s4);
  }

  lemma TwoLast(s4: State)
    requires |s4.versions| > 0 && |s4.loaders| == 1 && !s4.loaders[0].complete && !s4.loaders[0].stored
    ensures var s := Next(Next(s4, ReadSecond(0)), Store(0));
      && s.versions == s4.versions && |s.served| == |s4.served| + 1
      && s.served[|s4.served|].slot.reading.view
           == View(s4.loaders[0].reading.view.first, Second(Current(s4), s4.loaders[0].key))
  {
  }
}
