/** `ActionCallbacks`: each action key `k` renamed to `on${Capitalize<k>}`, every callback optional. */
module ActionCallbacks {
  import opened Wrappers

  /** `ActionKeys` = `keyof Actions`. */
  const ActionKeys: set<string> := {"play", "stop", "addToPlaylist", "removeFromPlaylist"}

  predicate IsLower(c: char) { 'a' <= c <= 'z' }
  predicate IsUpper(c: char) { 'A' <= c <= 'Z' }

  /** ASCII upper-casing of one character: a lower-case letter becomes its own capital, other characters are unchanged. */
  function ToUpper(c: char): (r: char)
    ensures IsLower(c) ==> IsUpper(r) && r as int - 'A' as int == c as int - 'a' as int
    ensures !IsLower(c) ==> r == c
  {
    if IsLower(c) then (c as int - 32) as char else c
  }

  /** ASCII lower-casing of one character: a capital becomes its own lower-case letter, other characters are unchanged. */
  function ToLower(c: char): (r: char)
    ensures IsUpper(c) ==> IsLower(r) && r as int - 'a' as int == c as int - 'A' as int
    ensures !IsUpper(c) ==> r == c
  {
    if IsUpper(c) then (c as int + 32) as char else c
  }

  /** `Capitalize<S>`: the first character upper-cased, the rest unchanged. */
  function Capitalize(s: string): (r: string)
    ensures |r| == |s|
    ensures s != [] ==> r[0] == ToUpper(s[0]) && r[1..] == s[1..]
  {
    if s == [] then [] else [ToUpper(s[0])] + s[1..]
  }

  /** The remapped key `on${Capitalize<k>}`. */
  function CallbackKey(action: string): string
  {
    "on" + Capitalize(action)
  }

  /** Reference inverse: the action whose callback is `callback`, when it is one. */
  function ActionOf(callback: string): Option<string>
  {
    if |callback| >= 3 && callback[..2] == "on" && IsUpper(callback[2])
    then Some([ToLower(callback[2])] + callback[3..])
    else None
  }

  /** The keys of `ActionCallbacks`. */
  function ActionCallbackKeys(): set<string>
  {
    CallbackKeys(ActionKeys)
  }

  /** `ActionCallbacks`: every callback optional, so any set of remapped keys. */
  predicate IsActionCallbacks(keys: set<string>)
  {
    keys <= ActionCallbackKeys()
  }

  /**
   * A callback key is `on`, then the action's first character upper-cased,
   * then the rest of the action unchanged: two characters longer.
   */
  lemma CallbackKeyShape(action: string)
    ensures var r := CallbackKey(action);
            && |r| == |action| + 2
            && r[..2] == "on"
            && (action != [] ==> r[2] == ToUpper(action[0]) && r[3..] == action[1..])
  {
  }

  lemma ToLowerToUpper(c: char)
    requires IsLower(c)
    ensures ToLower(ToUpper(c)) == c
  {
  }

  /** `ActionOf` undoes `CallbackKey` for actions that start with a lower-case letter. */
  lemma ActionOfCallbackKey(action: string)
    requires action != [] && IsLower(action[0])
    ensures ActionOf(CallbackKey(action)) == Some(action)
  {
    var r := CallbackKey(action);
    CallbackKeyShape(action);
    ToLowerToUpper(action[0]);
    assert action == [action[0]] + action[1..];
  }

  /** Every callback key `ActionOf` accepts is the key of the action it returns. */
  lemma CallbackKeyOfActionOf(callback: string)
    requires ActionOf(callback).Some?
    ensures CallbackKey(ActionOf(callback).value) == callback
  {
    var c := callback[2];
    var action := [ToLower(c)] + callback[3..];
    assert action[0] == ToLower(c) && action[1..] == callback[3..];
    assert ToUpper(ToLower(c)) == c;
    assert Capitalize(action) == [c] + callback[3..];
    assert callback == callback[..2] + [c] + callback[3..];
  }

  /** Distinct actions that start with a lower-case letter get distinct callback keys. */
  lemma CallbackKeyInjective(a1: string, a2: string)
    requires a1 != [] && IsLower(a1[0]) && a2 != [] && IsLower(a2[0])
    requires CallbackKey(a1) == CallbackKey(a2)
    ensures a1 == a2
  {
    ActionOfCallbackKey(a1);
    ActionOfCallbackKey(a2);
  }

  /** A lower-case first letter is upper-cased behind `on`; the rest is kept. */
  lemma CallbackKeyOfLower(c: char, rest: string)
    requires IsLower(c)
    ensures CallbackKey([c] + rest) == "on" + [(c as int - 32) as char] + rest
  {
    assert ([c] + rest)[1..] == rest;
  }

  /** `play` becomes `onPlay` and `addToPlaylist` becomes `onAddToPlaylist`; likewise the other two. */
  lemma RenamingExamples()
    ensures CallbackKey("play") == "onPlay"
    ensures CallbackKey("stop") == "onStop"
    ensures CallbackKey("addToPlaylist") == "onAddToPlaylist"
    ensures CallbackKey("removeFromPlaylist") == "onRemoveFromPlaylist"
  {
    CallbackKeyOfLower('p', "lay");
    CallbackKeyOfLower('s', "top");
    CallbackKeyOfLower('a', "ddToPlaylist");
    CallbackKeyOfLower('r', "emoveFromPlaylist");
    RenamingSpelling();
  }

  lemma RenamingSpelling()
    ensures "play" == ['p'] + "lay" && "onPlay" == "on" + ['P'] + "lay"
    ensures "stop" == ['s'] + "top" && "onStop" == "on" + ['S'] + "top"
    ensures "addToPlaylist" == ['a'] + "ddToPlaylist" && "onAddToPlaylist" == "on" + ['A'] + "ddToPlaylist"
    ensures "removeFromPlaylist" == ['r'] + "emoveFromPlaylist"
    ensures "onRemoveFromPlaylist" == "on" + ['R'] + "emoveFromPlaylist"
  {
  }

  /** Callback keys of a set of actions. */
  function CallbackKeys(actions: set<string>): set<string>
  {
    set a | a in actions :: CallbackKey(a)
  }

  /** Actions that start with a lower-case letter keep their number under renaming. */
  lemma {:induction false} CallbackKeysCardinality(actions: set<string>)
    requires forall a :: a in actions ==> a != [] && IsLower(a[0])
    ensures |CallbackKeys(actions)| == |actions|
    decreases actions
  {
    if actions != {} {
      var a :| a in actions;
      var rest := actions - {a};
      CallbackKeysCardinality(rest);
      assert CallbackKeys(actions) == CallbackKeys(rest) + {CallbackKey(a)};
      forall b | b in rest ensures CallbackKey(b) != CallbackKey(a) {
        ActionOfCallbackKey(a);
        ActionOfCallbackKey(b);
      }
    }
  }

  lemma CallbackKeysOfFour(a1: string, a2: string, a3: string, a4: string)
    ensures CallbackKeys({a1, a2, a3, a4}) == {CallbackKey(a1), CallbackKey(a2), CallbackKey(a3), CallbackKey(a4)}
  {
  }

  /** The four actions give the four callback keys of the source's `callbacks` object. */
  lemma ActionCallbackKeysListed()
    ensures ActionCallbackKeys() == {"onPlay", "onStop", "onAddToPlaylist", "onRemoveFromPlaylist"}
    ensures |ActionCallbackKeys()| == 4
  {
    RenamingExamples();
    CallbackKeysOfFour("play", "stop", "addToPlaylist", "removeFromPlaylist");
    CallbackKeysCardinality(ActionKeys);
  }

  /** The source's `callbacks` object, which sets all four, and the empty object are valid. */
  lemma CallbacksExamples()
    ensures IsActionCallbacks({"onPlay", "onStop", "onAddToPlaylist", "onRemoveFromPlaylist"})
    ensures IsActionCallbacks({})
  {
    ActionCallbackKeysListed();
  }
}
