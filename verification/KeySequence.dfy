/** The ten-key sequence that unlocks the admin keys: a window of the last keys, proved to see
    every occurrence in the whole history of keys. */
module KeySequence {
  const KEY_DOWN := 258
  const KEY_UP := 259
  const KEY_LEFT := 260
  const KEY_RIGHT := 261
  const ESCAPE := 27

  const SEQUENCE: seq<int> :=
    [KEY_UP, KEY_UP, KEY_DOWN, KEY_DOWN, KEY_LEFT, KEY_RIGHT, KEY_LEFT, KEY_RIGHT, 'b' as int, 'a' as int]

  /** The last ten keys are the sequence. */
  predicate Completes(keys: seq<int>) { |keys| >= 10 && keys[|keys| - 10..] == SEQUENCE }

  function Hits(keys: seq<int>): nat {
    if keys == [] then 0 else Hits(keys[..|keys| - 1]) + if Completes(keys) then 1 else 0
  }

  /** A key, and whether it reached the browsing view (server up, no prompt open). */
  datatype Press = Press(key: int, browsing: bool)

  function Keys(presses: seq<Press>): (r: seq<int>)
    ensures |r| == |presses| && forall i :: 0 <= i < |r| ==> r[i] == presses[i].key
  {
    seq(|presses|, i requires 0 <= i < |presses| => presses[i].key)
  }

  predicate Locks(press: Press) { press.browsing && press.key == ESCAPE }

  /** Whether a history of keys leaves the admin keys unlocked: every occurrence of the sequence
      toggles them, and Escape while browsing locks them. */
  function AdminAfter(presses: seq<Press>): bool {
    if presses == [] then false
    else if Locks(presses[|presses| - 1]) then false
    else AdminAfter(presses[..|presses| - 1]) != Completes(Keys(presses))
  }

  /** Two occurrences never overlap, because only the last key of the sequence is an 'a'. */
  lemma NoOverlap(keys: seq<int>, since: nat)
    requires since < |keys| && Completes(keys) && Completes(keys[..since])
    ensures since + 10 <= |keys|
  {
    assert keys[since - 1] == keys[..since][since - 10..][9];
    assert forall k :: 0 <= k < 9 ==> keys[|keys| - 10 + k] == keys[|keys| - 10..][k] && SEQUENCE[k] != SEQUENCE[9];
  }

  lemma AdminSnoc(presses: seq<Press>, press: Press)
    ensures Keys(presses + [press]) == Keys(presses) + [press.key]
    ensures AdminAfter(presses + [press])
        == (!Locks(press) && AdminAfter(presses) != Completes(Keys(presses) + [press.key]))
  {}

  /** Without a locking Escape, the admin keys are unlocked after an odd number of occurrences. */
  lemma {:induction false} AdminParity(presses: seq<Press>)
    requires forall i :: 0 <= i < |presses| ==> !Locks(presses[i])
    ensures AdminAfter(presses) <==> Hits(Keys(presses)) % 2 == 1
  {
    hide Completes;
    if presses != [] {
      AdminParity(presses[..|presses| - 1]);
      assert Keys(presses)[..|presses| - 1] == Keys(presses[..|presses| - 1]);
    }
  }

  /** `window` holds the last keys, up to ten, after the last occurrence of the sequence. */
  predicate Holds(keys: seq<int>, since: nat, window: seq<int>) {
    && since <= |keys| && (since > 0 ==> Completes(keys[..since]))
    && |window| == (if |keys| - since < 10 then |keys| - since else 10)
    && window == keys[|keys| - |window|..]
  }

  function Slide(window: seq<int>, key: int): seq<int>
    requires |window| <= 10
  {
    (if |window| < 10 then window else window[1..]) + [key]
  }

  lemma HoldsNext(keys: seq<int>, since: nat, window: seq<int>, key: int)
    requires Holds(keys, since, window)
    ensures Holds(keys + [key], since, Slide(window, key))
  {
    hide Completes;
    var after, next := keys + [key], Slide(window, key);
    assert after[..since] == keys[..since];
    assert next == after[|after| - |next|..];
  }

  lemma TenKeys()
    ensures |SEQUENCE| == 10
  {}

  /** After more keys than the last occurrence, the window shows the next one. */
  lemma WindowShows(keys: seq<int>, since: nat, window: seq<int>)
    requires Holds(keys, since, window) && since < |keys|
    ensures Completes(keys) <==> window == SEQUENCE
  {
    hide SEQUENCE;
    TenKeys();
    if Completes(keys) && since > 0 {
      NoOverlap(keys, since);
    }
  }

  /** One more key completes the sequence exactly when the window shows it. */
  lemma WindowSees(keys: seq<int>, since: nat, window: seq<int>, key: int)
    requires Holds(keys, since, window)
    ensures Completes(keys + [key]) <==> Slide(window, key) == SEQUENCE
    ensures Holds(keys + [key], since, Slide(window, key))
    ensures Completes(keys + [key]) ==> Holds(keys + [key], |keys| + 1, [])
  {
    hide Slide, Completes, SEQUENCE;
    var after := keys + [key];
    HoldsNext(keys, since, window, key);
    WindowShows(after, since, Slide(window, key));
    assert after[..|after|] == after;
  }
}
