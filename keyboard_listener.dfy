/**
 * The pressed-key bookkeeping of `keyboardListener.py`: the list of
 * keycodes currently held down, in the order they were pressed.
 */
module Keyboard {
  import opened Wrappers
  import opened PyList

  /** The exception `list.index` raises for a missing element. */
  datatype ListError = ValueError

  /** `keys.index(k)`: the first position holding `k`. */
  function IndexOf(keys: seq<int>, k: int): (r: nat)
    requires k in keys
    ensures r < |keys| && keys[r] == k
    ensures forall i :: 0 <= i < r ==> keys[i] != k
  {
    if keys[0] == k then 0 else 1 + IndexOf(keys[1..], k)
  }

  /** The list after `onPress(k)`: appended unless already held. */
  function Pressed(keys: seq<int>, k: int): seq<int>
  {
    if k in keys then keys else keys + [k]
  }

  /** The list after `onRelease(k)`: `del keys[keys.index(k)]`, or the `ValueError`
      raised when `k` is not held. */
  function Released(keys: seq<int>, k: int): Result<seq<int>, ListError>
  {
    if k in keys then
      var i := IndexOf(keys, k);
      Success(keys[..i] + keys[i + 1..])
    else Failure(ValueError)
  }

  /** Pressing never puts a keycode in the list twice, and afterwards it is held. */
  lemma PressedNoDup(keys: seq<int>, k: int)
    requires NoDup(keys)
    ensures NoDup(Pressed(keys, k))
    ensures k in Pressed(keys, k)
  {
  }

  /** Releasing removes exactly one occurrence and keeps the others in order;
      releasing a key that is not held fails and changes nothing. */
  lemma ReleasedRemovesOne(keys: seq<int>, k: int)
    ensures k !in keys <==> Released(keys, k) == Failure(ValueError)
    ensures k in keys ==>
              && Released(keys, k).Success?
              && multiset(Released(keys, k).value) == multiset(keys) - multiset{k}
              && exists i :: 0 <= i < |keys| && keys[i] == k && Released(keys, k).value == keys[..i] + keys[i + 1..]
  {
    if k in keys {
      var i := IndexOf(keys, k);
      assert keys == keys[..i] + [k] + keys[i + 1..];
    }
  }

  /** Releasing from a duplicate-free list leaves the key no longer held and no duplicates. */
  lemma ReleasedNoDup(keys: seq<int>, k: int)
    requires NoDup(keys) && k in keys
    ensures NoDup(Released(keys, k).value)
    ensures k !in Released(keys, k).value
  {
    var i := IndexOf(keys, k);
    var r := keys[..i] + keys[i + 1..];
    assert forall a :: 0 <= a < |r| ==> r[a] == (if a < i then keys[a] else keys[a + 1]);
  }

  /** The position of a freshly appended key is the end of the list. */
  lemma {:induction false} IndexOfAppended(keys: seq<int>, k: int)
    requires k !in keys
    ensures IndexOf(keys + [k], k) == |keys|
  {
    if keys != [] {
      assert (keys + [k])[1..] == keys[1..] + [k];
      IndexOfAppended(keys[1..], k);
    }
  }

  /** Pressing a key that was not held and releasing it restores the list. */
  lemma PressThenRelease(keys: seq<int>, k: int)
    requires k !in keys
    ensures Released(Pressed(keys, k), k) == Success(keys)
  {
    IndexOfAppended(keys, k);
    var held := keys + [k];
    assert Pressed(keys, k) == held;
    assert k in held;
    assert Released(held, k) == Success(held[..|keys|] + held[|keys| + 1..]);
    assert held[..|keys|] + held[|keys| + 1..] == keys;
  }

  class KeyboardListener {
    var keysPressed: seq<int>

    constructor ()
      ensures keysPressed == []
    {
      keysPressed := [];
    }

    /** `onPress`, with the keycode already decoded. A new keycode is appended and
        the signal carries the updated list; a held one changes nothing and emits nothing. */
    method OnPress(keycode: int) returns (signal: Option<seq<int>>)
      modifies this
      ensures keysPressed == Pressed(old(keysPressed), keycode)
      ensures signal == if keycode in old(keysPressed) then None else Some(keysPressed)
      ensures NoDup(old(keysPressed)) ==> NoDup(keysPressed)
    {
      signal := None;
      if keycode !in keysPressed {
        keysPressed := keysPressed + [keycode];
        signal := Some(keysPressed);
      }
    }

    /** `onRelease`, with the keycode already decoded: `del keysPressed[keysPressed.index(keycode)]`. */
    method OnRelease(keycode: int) returns (outcome: Result<(), ListError>)
      modifies this
      ensures outcome.Success? <==> keycode in old(keysPressed)
      ensures outcome.Success? ==> Released(old(keysPressed), keycode) == Success(keysPressed)
      ensures outcome.Failure? ==> outcome.error == ValueError && keysPressed == old(keysPressed)
    {
      if keycode !in keysPressed {
        return Failure(ValueError);
      }
      var i := IndexOf(keysPressed, keycode);
      keysPressed := keysPressed[..i] + keysPressed[i + 1..];
      outcome := Success(());
    }
  }
}
