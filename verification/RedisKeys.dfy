/**
 One counter key in Redis: a value with an expiry time in seconds. A key whose time has come reads as absent.
 These are the commands and Lua scripts of both counters; each is atomic on the server.
 */
module RedisKeys {
  import opened Prelude

  /** LIKE_COUNT_TTL_SEC and UNREAD_COUNT_TTL_SEC. */
  const COUNT_TTL_SEC: nat := 3600

  datatype Entry = Entry(value: int, expiresAt: nat)

  /** The entry as Redis sees it at `now`. */
  function Live(entry: Option<Entry>, now: nat): Option<Entry> {
    if entry.Some? && now < entry.value.expiresAt then entry else None
  }

  /**
   INCRBY_IF_EXISTS, and with deltas 1 and -1 INCR_IF_EXISTS and DECR_IF_EXISTS (an INCR of a value that is
   never negative needs no clamp): a missing key stays missing, a negative value becomes 0, the expiry never moves.
   */
  function IncrByIfExists(entry: Option<Entry>, delta: int): Option<Entry> {
    if entry.None? then None
    else
      var v := entry.value.value + delta;
      Some(entry.value.(value := if v < 0 then 0 else v))
  }

  /** SET ... EX NX: only a missing key is filled, and only this gives a key its expiry. */
  function SetNx(entry: Option<Entry>, count: int, now: nat): Option<Entry> {
    if entry.Some? then entry else Some(Entry(count, now + COUNT_TTL_SEC))
  }

  datatype Command = IncrBy(delta: int) | Fill(count: nat) | Delete | Wait(seconds: nat)

  datatype Key = Key(now: nat, entry: Option<Entry>)

  function Execute(key: Key, command: Command): Key {
    match command
    case IncrBy(delta) => key.(entry := IncrByIfExists(key.entry, delta))
    case Fill(count) => key.(entry := SetNx(key.entry, count, key.now))
    case Delete => key.(entry := None)
    case Wait(seconds) => Key(key.now + seconds, Live(key.entry, key.now + seconds))
  }

  function ExecuteAll(key: Key, commands: seq<Command>): Key
    decreases |commands|
  {
    if commands == [] then key
    else Execute(ExecuteAll(key, commands[..|commands| - 1]), commands[|commands| - 1])
  }

  /**
   Whatever commands run, a key that is there was put there by one fill, less than 3600 seconds ago,
   and has been there ever since: no increment, decrement or clamp prolongs it.
   */
  lemma {:induction false} PresentKeyIsYoung(commands: seq<Command>) returns (i: nat)
    requires ExecuteAll(Key(0, None), commands).entry.Some?
    ensures i < |commands| && commands[i].Fill?
    ensures ExecuteAll(Key(0, None), commands[..i]).entry.None?
    ensures var filledAt := ExecuteAll(Key(0, None), commands[..i]).now;
      ExecuteAll(Key(0, None), commands).entry.value.expiresAt == filledAt + 3600
    ensures ExecuteAll(Key(0, None), commands).now
          < ExecuteAll(Key(0, None), commands).entry.value.expiresAt
    ensures forall j :: i < j <= |commands| ==> ExecuteAll(Key(0, None), commands[..j]).entry.Some?
    decreases |commands|
  {
    var n := |commands| - 1;
    assert commands[..|commands|] == commands;
    if ExecuteAll(Key(0, None), commands[..n]).entry.None? {
      i := n;
    } else {
      i := PresentKeyIsYoung(commands[..n]);
      assert commands[..n][..i] == commands[..i];
      forall j | i < j <= |commands| ensures ExecuteAll(Key(0, None), commands[..j]).entry.Some? {
        if j <= n {
          assert commands[..n][..j] == commands[..j];
        }
      }
    }
  }
}
