/**
 * The window event handler of the main loop: it keeps the list of keys held
 * down, shared with the render thread, and decides after each event whether
 * the loop waits for the next event or exits. The locks around the shared
 * state become plain inputs saying whether each lock was obtained.
 */
module EventLoop {
  import opened Prelude

  /** A virtual key code; Escape and Q are the ones the handler singles out. */
  datatype Key = Escape | Q | OtherKey(code: nat)

  datatype ElementState = Pressed | Released

  /** The events the handler distinguishes; a keyboard event may come without a virtual key code. */
  datatype Event =
    | CloseRequested
    | Resized(width: nat, height: nat)
    | KeyboardInput(state: ElementState, keycode: Option<Key>)
    | MouseMotion(dx: real, dy: real)
    | OtherEvent

  datatype ControlFlow = Poll | Wait | Exit

  /** Where `k` first occurs in `keys`. */
  function IndexOf(keys: seq<Key>, k: Key): (i: nat)
    requires k in keys
    ensures i < |keys| && keys[i] == k
    ensures forall j :: 0 <= j < i ==> keys[j] != k
    decreases |keys|
  {
    if keys[0] == k then 0 else 1 + IndexOf(keys[1..], k)
  }

  /** What a press does to the key list: append the key unless it is already there. */
  function Press(keys: seq<Key>, k: Key): seq<Key> {
    if k in keys then keys else keys + [k]
  }

  /** What a release does to the key list: remove the first occurrence of the key, if any. */
  function Release(keys: seq<Key>, k: Key): seq<Key> {
    if k in keys then
      var i := IndexOf(keys, k);
      keys[..i] + keys[i + 1..]
    else keys
  }

  /** `keys` with every occurrence of `k` dropped, the others in their order. */
  function Without(keys: seq<Key>, k: Key): seq<Key>
    decreases |keys|
  {
    if keys == [] then []
    else (if keys[0] == k then [] else [keys[0]]) + Without(keys[1..], k)
  }

  /** The key list after one event, when the lock on it is obtained iff `keysLocked`. */
  function NextKeys(keys: seq<Key>, event: Event, keysLocked: bool): seq<Key> {
    match event
    case KeyboardInput(state, Some(k)) =>
      if !keysLocked then keys
      else if state == Pressed then Press(keys, k)
      else Release(keys, k)
    case _ => keys
  }

  /**
   * The control flow after one event. `health` is the render thread's health
   * flag, or None when reading it fails.
   */
  function NextControlFlow(event: Event, health: Option<bool>): (flow: ControlFlow)
    ensures flow != Poll
    ensures flow == Exit <==>
              || health == Some(false)
              || event == CloseRequested
              || (event.KeyboardInput? && event.keycode == Some(Escape))
  {
    var checked := if health == Some(false) then Exit else Wait;
    match event
    case CloseRequested => Exit
    case KeyboardInput(_, Some(Escape)) => Exit
    case _ => checked
  }

  /** `keys.iter().position(|&k| k == key)`: a front-to-back search for the first occurrence. */
  method Position(keys: seq<Key>, key: Key) returns (i: nat)
    requires key in keys
    ensures i < |keys| && keys[i] == key
    ensures forall j :: 0 <= j < i ==> keys[j] != key
  {
    i := 0;
    while keys[i] != key
      invariant i < |keys|
      invariant forall j :: 0 <= j < i ==> keys[j] != key
      invariant key in keys[i..]
      decreases |keys| - i
    {
      i := i + 1;
    }
  }

  /** The handler's state: the pressed-key vector and the control flow it writes back. */
  class InputState {
    var keys: seq<Key>
    var controlFlow: ControlFlow

    /** Starts with no key held, as `Vec::with_capacity(10)`. */
    constructor()
      ensures keys == [] && controlFlow == Poll
    {
      keys := [];
      controlFlow := Poll;
    }

    /** The handler run on one event. */
    method HandleEvent(event: Event, health: Option<bool>, keysLocked: bool)
      modifies this
      ensures keys == NextKeys(old(keys), event, keysLocked)
      ensures controlFlow == NextControlFlow(event, health)
      ensures NoDuplicates(old(keys)) ==> NoDuplicates(keys)
    {
      controlFlow := Wait;
      if health == Some(false) {
        controlFlow := Exit;
      }
      match event {
        case CloseRequested =>
          controlFlow := Exit;
        case KeyboardInput(state, Some(keycode)) =>
          if keysLocked {
            match state {
              case Released =>
                if keycode in keys {
                  var i := Position(keys, keycode);
                  assert i == IndexOf(keys, keycode);
                  keys := keys[..i] + keys[i + 1..];
                }
              case Pressed =>
                if keycode !in keys {
                  keys := keys + [keycode];
                }
            }
          }
          match keycode {
            case Escape => controlFlow := Exit;
            case Q =>
            case _ =>
          }
        case _ =>
      }
      NextKeysKeepsNoDuplicates(old(keys), event, keysLocked);
    }
  }

  /** Pressing a key that is absent appends it at the end; pressing one that is present changes nothing. */
  lemma PressAppends(keys: seq<Key>, k: Key)
    ensures k !in keys ==> Press(keys, k) == keys + [k]
    ensures k in keys ==> Press(keys, k) == keys
    ensures Press(Press(keys, k), k) == Press(keys, k)
  {
  }

  lemma PressKeepsNoDuplicates(keys: seq<Key>, k: Key)
    requires NoDuplicates(keys)
    ensures NoDuplicates(Press(keys, k))
    ensures forall x :: x in Press(keys, k) <==> x in keys || x == k
  {
  }

  /** With no duplicates, a release drops exactly the released key and keeps the others in order. */
  lemma {:induction false} ReleaseIsWithout(keys: seq<Key>, k: Key)
    requires NoDuplicates(keys)
    ensures Release(keys, k) == Without(keys, k)
    decreases |keys|
  {
    if keys != [] {
      var rest := keys[1..];
      TailNoDuplicates(keys);
      ReleaseIsWithout(rest, k);
      assert Without(keys, k) == (if keys[0] == k then [] else [keys[0]]) + Without(rest, k);
      if keys[0] == k {
        WithoutAbsent(rest, k);
        assert IndexOf(keys, k) == 0;
      } else if k in rest {
        ReleaseSkipsHead(keys, k);
      } else {
        WithoutAbsent(rest, k);
        assert k !in keys;
        assert keys == [keys[0]] + rest;
      }
    }
  }

  /** Releasing a key found past the head keeps the head and releases it in the rest. */
  lemma ReleaseSkipsHead(keys: seq<Key>, k: Key)
    requires keys != [] && keys[0] != k && k in keys[1..]
    ensures Release(keys, k) == [keys[0]] + Release(keys[1..], k)
  {
    var rest := keys[1..];
    var i := IndexOf(rest, k);
    assert IndexOf(keys, k) == 1 + i;
    calc {
      Release(keys, k);
      keys[..1 + i] + keys[i + 2..];
      { assert keys[..1 + i] == [keys[0]] + rest[..i]; assert keys[i + 2..] == rest[i + 1..]; }
      ([keys[0]] + rest[..i]) + rest[i + 1..];
      [keys[0]] + (rest[..i] + rest[i + 1..]);
      [keys[0]] + Release(rest, k);
    }
  }

  /** Past the first key of a duplicate-free list, the first key does not recur and the rest is duplicate-free. */
  lemma TailNoDuplicates(keys: seq<Key>)
    requires NoDuplicates(keys) && keys != []
    ensures NoDuplicates(keys[1..]) && keys[0] !in keys[1..]
  {
    var rest := keys[1..];
    forall i, j | 0 <= i < j < |rest| ensures rest[i] != rest[j] {
      assert rest[i] == keys[i + 1] && rest[j] == keys[j + 1];
    }
    forall j | 0 <= j < |rest| ensures rest[j] != keys[0] {
      assert rest[j] == keys[j + 1];
    }
  }

  /** Dropping a key that does not occur changes nothing. */
  lemma {:induction false} WithoutAbsent(keys: seq<Key>, k: Key)
    requires k !in keys
    ensures Without(keys, k) == keys
    decreases |keys|
  {
    if keys != [] {
      assert k !in keys[1..];
      WithoutAbsent(keys[1..], k);
      assert keys == [keys[0]] + keys[1..];
    }
  }

  /** A key is in `Without(keys, k)` iff it is in `keys` and is not `k`; no duplicates are introduced. */
  lemma {:induction false} WithoutMembers(keys: seq<Key>, k: Key)
    ensures forall x :: x in Without(keys, k) <==> x in keys && x != k
    ensures NoDuplicates(keys) ==> NoDuplicates(Without(keys, k))
    decreases |keys|
  {
    if keys != [] {
      var rest := keys[1..];
      WithoutMembers(rest, k);
      assert keys == [keys[0]] + rest;
      if NoDuplicates(keys) {
        TailNoDuplicates(keys);
        var w := Without(rest, k);
        var head := if keys[0] == k then [] else [keys[0]];
        forall i, j | 0 <= i < j < |head + w| ensures (head + w)[i] != (head + w)[j] {
          if i < |head| {
            assert (head + w)[j] == w[j - |head|];
            assert w[j - |head|] in w;
          } else {
            assert (head + w)[i] == w[i - |head|] && (head + w)[j] == w[j - |head|];
          }
        }
      }
    }
  }

  /** With no duplicates, releasing removes the key and nothing else, and keeps the list duplicate-free. */
  lemma ReleaseRemoves(keys: seq<Key>, k: Key)
    requires NoDuplicates(keys)
    ensures NoDuplicates(Release(keys, k))
    ensures forall x :: x in Release(keys, k) <==> x in keys && x != k
    ensures k !in keys ==> Release(keys, k) == keys
  {
    ReleaseIsWithout(keys, k);
    WithoutMembers(keys, k);
  }

  /** Releasing a key just pressed restores the list as it was before the press. */
  lemma ReleaseUndoesPress(keys: seq<Key>, k: Key)
    requires k !in keys
    ensures Release(Press(keys, k), k) == keys
  {
    var pressed := keys + [k];
    assert IndexOf(pressed, k) == |keys|;
    assert pressed[..|keys|] == keys;
  }

  /** One event never introduces a duplicate into the key list. */
  lemma NextKeysKeepsNoDuplicates(keys: seq<Key>, event: Event, keysLocked: bool)
    ensures NoDuplicates(keys) ==> NoDuplicates(NextKeys(keys, event, keysLocked))
  {
    if NoDuplicates(keys) && event.KeyboardInput? && event.keycode.Some? {
      PressKeepsNoDuplicates(keys, event.keycode.value);
      ReleaseRemoves(keys, event.keycode.value);
    }
  }

  /** The key list after a run of events, each paired with whether the lock was obtained. */
  function RunKeys(keys: seq<Key>, events: seq<(Event, bool)>): seq<Key>
    decreases |events|
  {
    if events == [] then keys
    else RunKeys(NextKeys(keys, events[0].0, events[0].1), events[1..])
  }

  /** Starting from no duplicates, no sequence of events ever produces one. */
  lemma {:induction false} RunKeysKeepsNoDuplicates(keys: seq<Key>, events: seq<(Event, bool)>)
    requires NoDuplicates(keys)
    ensures NoDuplicates(RunKeys(keys, events))
    decreases |events|
  {
    if events != [] {
      NextKeysKeepsNoDuplicates(keys, events[0].0, events[0].1);
      RunKeysKeepsNoDuplicates(NextKeys(keys, events[0].0, events[0].1), events[1..]);
    }
  }
}
