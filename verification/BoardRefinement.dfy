/** The board's use cases as `BoardCache` runs them, one at a time, are interleavings of `BoardStaleness`. */
module BoardRefinement {
  import opened Prelude
  import opened BoardViews
  import opened BoardCache
  import opened BoardStaleness

  /** What Redis answers for a key, as `RedisBoardCache.At` says it. */
  function CachedAt(s: State, key: Key): Option<View> {
    if Live(s, key) then Some(s.slots[key].reading.view) else None
  }

  /** `BoardUseCases.Coherent`. */
  ghost predicate Coherent(s: State)
    requires |s.versions| > 0
  {
    forall key :: CachedAt(s, key).Some? ==>
      CachedAt(s, key).value == ViewOf(Current(s), key) && Present(CachedAt(s, key).value.first)
  }

  lemma RunTwo(s: State, a: Step, b: Step)
    ensures Run(s, [a, b]) == Next(Next(s, a), b)
  {
    assert [a, b][1..] == [b] && [b][1..] == [];
    assert Run(Next(s, a), [b]) == Run(Next(Next(s, a), b), []);
  }

  lemma RunThree(s: State, a: Step, b: Step, c: Step)
    ensures Run(s, [a, b, c]) == Next(Next(Next(s, a), b), c)
  {
    assert [a, b, c][1..] == [b, c];
    RunTwo(Next(s, a), b, c);
  }

  /**
   A read of something that is there, hit or miss: the run serves what `ShowPost` or `ShowList` answers and leaves the
   cache as `GetPost` and `ListPosts` do.
   */
  lemma ReadIsARun(s: State, key: Key) returns (steps: seq<Step>)
    requires |s.versions| > 0 && Coherent(s) && Present(First(Current(s), key))
    ensures var s' := Run(s, steps);
      && s'.versions == s.versions && s'.now == s.now && Coherent(s')
      && |s'.served| == |s.served| + 1
      && s'.served[|s.served|].key == key && s'.served[|s.served|].slot.reading.view == ViewOf(Current(s), key)
      && forall k :: CachedAt(s', k) == if k == key then Some(ViewOf(Current(s), key)) else CachedAt(s, k)
  {
    if Live(s, key) {
      steps := [Hit(key)];
      assert steps[1..] == [];
      assert Run(s, steps) == Run(Next(s, Hit(key)), []);
      assert CachedAt(s, key).Some?;
    } else {
      var l := |s.loaders|;
      steps := [BeginLoad(key), ReadSecond(l), Store(l)];
      RunThree(s, BeginLoad(key), ReadSecond(l), Store(l));
    }
  }

  /** What a loader set is what the cache answers, for 120 s and no longer, unless something else happens to the key. */
  lemma SetThenGet(s: State, l: nat, ms: nat)
    requires Enabled(s, Store(l))
    ensures var key, view := s.loaders[l].key, s.loaders[l].reading.view;
      var s' := Next(Next(s, Store(l)), Elapse(ms));
      && CachedAt(s', key) == (if ms < 120_000 then Some(view) else None)
      && forall k :: k != key && CachedAt(s', k).Some? ==> CachedAt(s', k) == CachedAt(s, k)
  {
  }

  /** The keys its use case deletes after a write, in that order. */
  function Dropped(db: Db, w: Write): (keys: seq<Key>)
    requires CanApply(db, w)
    ensures forall key :: key in keys <==> key in Invalidates(db, w)
  {
    match w
    case CreatePost(b, _, _, _, _, _) => [ListKey(b)]
    case CreateComment(p, _, _, _) => [DetailKey(p)]
    case _ => [DetailKey(w.post), ListKey(db.posts[w.post].building)]
  }

  function Drops(keys: seq<Key>): (steps: seq<Step>)
    ensures |steps| == |keys| && forall i :: 0 <= i < |keys| ==> steps[i] == Invalidate(keys[i])
  {
    seq(|keys|, i requires 0 <= i < |keys| => Invalidate(keys[i]))
  }

  function WriteSteps(db: Db, w: Write): seq<Step>
    requires CanApply(db, w)
  {
    [Commit(w)] + Drops(Dropped(db, w))
  }

  /** Deleting keys touches nothing but their entries. */
  lemma {:induction false} DropsState(s: State, keys: seq<Key>)
    requires |s.versions| > 0
    ensures var s' := Run(s, Drops(keys));
      && s'.versions == s.versions && s'.now == s.now
      && forall k :: k in s'.slots <==> k in s.slots && k !in keys
    ensures forall k :: k in Run(s, Drops(keys)).slots ==> k in s.slots && Run(s, Drops(keys)).slots[k] == s.slots[k]
    decreases |keys|
  {
    if keys != [] {
      assert Drops(keys)[1..] == Drops(keys[1..]);
      DropsState(Next(s, Invalidate(keys[0])), keys[1..]);
    }
  }

  /** A write and its invalidations: the run leaves the database and the cache as the use case does, and coherent. */
  lemma WriteIsARun(s: State, w: Write)
    requires Inv(s) && Coherent(s) && CanApply(Current(s), w)
    ensures var s' := Run(s, WriteSteps(Current(s), w));
      && |s'.versions| > 0 && Current(s') == ApplyWrite(Current(s), w) && s'.now == s.now
      && (forall k :: CachedAt(s', k) == if k in Invalidates(Current(s), w) then None else CachedAt(s, k))
      && Coherent(s')
  {
    WriteState(s, w);
    var s' := Run(s, WriteSteps(Current(s), w));
    forall k | CachedAt(s', k).Some?
      ensures CachedAt(s', k).value == ViewOf(Current(s'), k) && Present(CachedAt(s', k).value.first)
    {
      KeptEntry(s, w, k);
    }
  }

  lemma WriteState(s: State, w: Write)
    requires |s.versions| > 0 && CanApply(Current(s), w)
    ensures var s' := Run(s, WriteSteps(Current(s), w));
      && s'.versions == s.versions + [Version(ApplyWrite(Current(s), w), s.now)] && s'.now == s.now
      && forall k :: CachedAt(s', k) == if k in Invalidates(Current(s), w) then None else CachedAt(s, k)
  {
    var keys := Dropped(Current(s), w);
    assert ([Commit(w)] + Drops(keys))[1..] == Drops(keys);
    DropsState(Next(s, Commit(w)), keys);
  }

  lemma KeptEntry(s: State, w: Write, k: Key)
    requires Inv(s) && Coherent(s) && CanApply(Current(s), w)
    requires CachedAt(s, k).Some? && k !in Invalidates(Current(s), w)
    ensures CachedAt(s, k).value == ViewOf(ApplyWrite(Current(s), w), k) && Present(CachedAt(s, k).value.first)
  {
    assert SlotOk(s, k);
    if k.DetailKey? {
      StillThere(s, k, s.slots[k].reading, true);
    }
    OtherViewsSame(Current(s), w, k);
  }
}
