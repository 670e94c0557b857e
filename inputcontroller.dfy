/**
 * Keybindings: a stack of control sets, each mapping key aliases to
 * command names, with per-set "hold" state. The top set's own bindings
 * (`actualSet`) override its defaults (`defaultSet`); key and mouse
 * handlers turn a key or button into the events `<guid><command>:start`,
 * `<guid><command>` and `<guid><command>:end` on the controller.
 *
 * Published events are appended to the controller's `published` log;
 * listeners (subscribe/unsubscribe) are not modelled.
 */
module InputControllers {
  import opened Util

  const StartSuffix: string := ":start"
  const EndSuffix: string := ":end"

  // ---------------------------------------------------------------------
  // Aliases.

  /** `KEYCODE_ALIAS`: the name of a key code, when it has one. */
  function KeyAlias(code: int): (a: Option<string>)
    ensures a.Some? ==> a.value != ""
  {
    if code == 8 then Some("backspace")
    else if code == 9 then Some("tab")
    else if code == 13 then Some("enter")
    else if code == 16 then Some("shift")
    else if code == 27 then Some("escape")
    else if code == 32 then Some("space")
    else if code == 33 then Some("pgup")
    else if code == 34 then Some("pgdn")
    else if code == 37 then Some("left_arrow")
    else if code == 38 then Some("up_arrow")
    else if code == 39 then Some("right_arrow")
    else if code == 40 then Some("down_arrow")
    else if code == 188 then Some("comma")
    else if code == 190 then Some("period")
    // digits 0-9
    else if 48 <= code <= 57 then Some([code as char])
    // letters a-z
    else if 65 <= code <= 90 then Some([(code + 97 - 65) as char])
    else None
  }

  /** `MOUSEBUTTON_ALIAS`: the name of a mouse button, when it has one. */
  function MouseAlias(button: int): (a: Option<string>)
    ensures a.Some? ==> a.value != ""
  {
    if button == 0 then Some("mouse0")
    else if button == 1 then Some("mouse1")
    else if button == 2 then Some("mouse2")
    else None
  }

  /** A key name some key code or mouse button is aliased to. */
  predicate KnownKey(k: string)
  {
    (exists code :: 8 <= code <= 190 && KeyAlias(code) == Some(k)) || k in {"mouse0", "mouse1", "mouse2"}
  }

  /** `PREVENTS`: aliases whose browser default action is suppressed. */
  predicate Prevents(alias: string)
  {
    alias in {"tab", "space", "pgup", "pgdn", "mouse0"}
  }

  /** `toLowerCase`, on ASCII letters. */
  function ToLower(s: string): (r: string)
    ensures |r| == |s|
    ensures forall i :: 0 <= i < |s| ==> r[i] == if 'A' <= s[i] <= 'Z' then (s[i] as int + 32) as char else s[i]
  {
    if s == [] then []
    else [if 'A' <= s[0] <= 'Z' then (s[0] as int + 32) as char else s[0]] + ToLower(s[1..])
  }

  /** Lower-casing twice is lower-casing once, so re-lowering a command name is harmless. */
  lemma ToLowerIdempotent(s: string)
    ensures ToLower(ToLower(s)) == ToLower(s)
  {
    var once := ToLower(s);
    assert forall i :: 0 <= i < |once| ==> ToLower(once)[i] == once[i];
  }

  /** Decimal digits of a natural number. */
  function NatToString(n: nat): (s: string)
    ensures |s| >= 1 && forall i :: 0 <= i < |s| ==> '0' <= s[i] <= '9'
  {
    if n < 10 then [(n + 48) as char] else NatToString(n / 10) + [(n % 10 + 48) as char]
  }

  // ---------------------------------------------------------------------
  // Registering a command: what `registerCommand` decides, on values.

  /** One element of `defaultKeys`: a string or something else. */
  datatype KeyArg = Str(s: string) | NonString

  /** A binding that blocks a key: a truthy (non-empty) command name. */
  predicate Bound(ds: map<string, Option<string>>, k: string)
  {
    k in ds && ds[k].Some? && ds[k].value != ""
  }

  /** Bind the keys in order; the first bad key throws, keeping earlier bindings. */
  function BindKeys(ds: map<string, Option<string>>, cmd: string, keys: seq<KeyArg>): (Outcome, map<string, Option<string>>)
    decreases |keys|
  {
    if keys == [] then (Pass, ds)
    else match keys[0]
      case NonString => (Fail("Non-string key given"), ds)
      case Str(s) =>
        var k := ToLower(s);
        if !KnownKey(k) then (Fail("Unknown key “" + k + "” given"), ds)
        else if Bound(ds, k) then
          (Fail("Default key “" + k + "” already bound to command “" + ds[k].value + "”"), ds)
        else BindKeys(ds[k := Some(cmd)], cmd, keys[1..])
  }

  /** `registerCommand` on a `defaultSet`, for an already lower-cased command name. */
  function Register(ds: map<string, Option<string>>, cmd: string, keys: seq<KeyArg>): (Outcome, map<string, Option<string>>)
  {
    if exists k :: k in ds && ds[k] == Some(cmd) then (Fail("Command “" + cmd + "” already registered"), ds)
    else BindKeys(ds, cmd, keys)
  }

  /**
   * Binding never overwrites a bound key, binds only known lower-cased keys
   * to the command, and on success binds every key given.
   */
  lemma {:induction false} BindKeysSound(ds: map<string, Option<string>>, cmd: string, keys: seq<KeyArg>)
    ensures var (out, ds') := BindKeys(ds, cmd, keys);
      ds.Keys <= ds'.Keys
      && (forall k :: Bound(ds, k) ==> k in ds' && ds'[k] == ds[k])
      && (forall k :: k in ds' && (k !in ds || ds'[k] != ds[k]) ==> KnownKey(k) && ds'[k] == Some(cmd))
      && (out == Pass ==> forall i :: 0 <= i < |keys| ==>
            keys[i].Str? && ToLower(keys[i].s) in ds' && ds'[ToLower(keys[i].s)] == Some(cmd))
    decreases |keys|
  {
    if keys != [] && keys[0].Str? {
      var k := ToLower(keys[0].s);
      if KnownKey(k) && !Bound(ds, k) {
        BindKeysSound(ds[k := Some(cmd)], cmd, keys[1..]);
        var (out, ds') := BindKeys(ds, cmd, keys);
        if out == Pass {
          forall i | 0 <= i < |keys|
            ensures keys[i].Str? && ToLower(keys[i].s) in ds' && ds'[ToLower(keys[i].s)] == Some(cmd)
          {
            if i > 0 {
              assert keys[i] == keys[1..][i - 1];
            } else {
              BindKeysKeeps(ds[k := Some(cmd)], cmd, keys[1..], k);
            }
          }
        }
      }
    }
  }

  /** A key bound to `cmd` stays bound to it while more keys are bound. */
  lemma {:induction false} BindKeysKeeps(ds: map<string, Option<string>>, cmd: string, keys: seq<KeyArg>, k: string)
    requires k in ds && ds[k] == Some(cmd)
    ensures k in BindKeys(ds, cmd, keys).1 && BindKeys(ds, cmd, keys).1[k] == Some(cmd)
    decreases |keys|
  {
    if keys != [] && keys[0].Str? {
      var k' := ToLower(keys[0].s);
      if KnownKey(k') && !Bound(ds, k') {
        BindKeysKeeps(ds[k' := Some(cmd)], cmd, keys[1..], k);
      }
    }
  }

  /** A command registered with at least one key cannot be registered again. */
  lemma RegisterTwiceFails(ds: map<string, Option<string>>, cmd: string, keys: seq<KeyArg>, again: seq<KeyArg>)
    requires Register(ds, cmd, keys).0 == Pass && |keys| >= 1
    ensures Register(Register(ds, cmd, keys).1, cmd, again) == (Fail("Command “" + cmd + "” already registered"), Register(ds, cmd, keys).1)
  {
    BindKeysSound(ds, cmd, keys);
    var ds' := Register(ds, cmd, keys).1;
    var k := ToLower(keys[0].s);
    assert k in ds' && ds'[k] == Some(cmd);
  }

  /**
   * Once a command is unregistered no key is bound to it, so registering it
   * again only binds keys.
   */
  lemma UnregisterThenRegister(ds: map<string, Option<string>>, cmd: string, keys: seq<KeyArg>)
    ensures forall k :: k in Unbound(ds, cmd) ==> Unbound(ds, cmd)[k] != Some(cmd)
    ensures Register(Unbound(ds, cmd), cmd, keys) == BindKeys(Unbound(ds, cmd), cmd, keys)
  {
    var u := Unbound(ds, cmd);
    assert !exists k :: k in u && u[k] == Some(cmd);
  }

  /** `_.defaults({}, actualSet, defaultSet)`, with unbound (undefined) keys dropped. */
  function Effective(actual: map<string, string>, defaults: map<string, Option<string>>): (m: map<string, string>)
    ensures forall k :: k in m <==> k in actual || (k in defaults && defaults[k].Some?)
    ensures forall k :: k in m ==> m[k] == if k in actual then actual[k] else defaults[k].value
  {
    map k | k in actual.Keys + (set k | k in defaults && defaults[k].Some?) ::
      if k in actual then actual[k] else defaults[k].value
  }

  /** `setKeybinds`: lower-cased keys to lower-cased string commands; the last of equal keys wins. */
  datatype BindValue = StrValue(s: string) | OtherValue

  function Keybinds(entries: seq<(string, BindValue)>): (m: map<string, string>)
    ensures forall k :: k in m ==> exists i :: 0 <= i < |entries| && ToLower(entries[i].0) == k && entries[i].1.StrValue?
    ensures forall i :: 0 <= i < |entries| && entries[i].1.StrValue? ==> ToLower(entries[i].0) in m
  {
    if entries == [] then map[]
    else
      var last := entries[|entries| - 1];
      var m := Keybinds(entries[..|entries| - 1]);
      if last.1.StrValue? then m[ToLower(last.0) := ToLower(last.1.s)] else m
  }

  // ---------------------------------------------------------------------
  // Control sets and the controller.

  class ControlSet {
    const name: string
    const guid: string
    var defaultSet: map<string, Option<string>>
    var actualSet: map<string, string>
    /** `ongoingHoldCommands`, with its keys in insertion order. */
    var ongoing: map<string, bool>
    var ongoingOrder: seq<string>

    ghost predicate Valid()
      reads this
    {
      (forall i, j :: 0 <= i < j < |ongoingOrder| ==> ongoingOrder[i] != ongoingOrder[j])
      && (forall c :: c in ongoing <==> c in ongoingOrder)
    }

    constructor (name: string, guid: nat)
      ensures this.name == name && this.guid == NatToString(guid) + ":"
      ensures defaultSet == map[] && actualSet == map[] && ongoing == map[] && ongoingOrder == []
      ensures Valid()
    {
      this.name := name;
      this.guid := NatToString(guid) + ":";
      defaultSet := map[];
      actualSet := map[];
      ongoing := map[];
      ongoingOrder := [];
    }

    /** Record `cmd` as held or released, keeping the insertion order of keys. */
    method SetHeld(cmd: string, held: bool)
      requires Valid()
      modifies this
      ensures Valid()
      ensures ongoing == old(ongoing)[cmd := held]
      ensures ongoingOrder == if cmd in old(ongoing) then old(ongoingOrder) else old(ongoingOrder) + [cmd]
      ensures defaultSet == old(defaultSet) && actualSet == old(actualSet)
    {
      if cmd !in ongoing {
        ongoingOrder := ongoingOrder + [cmd];
      }
      ongoing := ongoing[cmd := held];
    }

    /**
     * `endHoldCommand`: publish the end event and release, only when held.
     * The events published on the emitter are returned, in order.
     */
    method EndHoldCommand(cmd: string) returns (evs: seq<string>)
      modifies this
      ensures evs == EndEvent(guid, cmd, old(ongoing))
      ensures ongoing == Released(old(ongoing), cmd)
      ensures ongoingOrder == old(ongoingOrder)
      ensures defaultSet == old(defaultSet) && actualSet == old(actualSet)
    {
      evs := [];
      if cmd in ongoing && ongoing[cmd] {
        evs := [guid + cmd + EndSuffix];
        ongoing := ongoing[cmd := false];
      }
    }

    /** `endAllOngoingHoldCommandsFrom`: end every held command, in key order. */
    method EndAllOngoingHoldCommands() returns (evs: seq<string>)
      requires Valid()
      modifies this
      ensures Valid()
      ensures evs == EndEvents(guid, old(ongoingOrder), old(ongoing))
      ensures ongoingOrder == old(ongoingOrder)
      ensures ongoing == ReleasedAll(old(ongoing), old(ongoingOrder))
      ensures ongoing.Keys == old(ongoing).Keys && forall c :: c in ongoing ==> !ongoing[c]
      ensures defaultSet == old(defaultSet) && actualSet == old(actualSet)
    {
      ghost var held0 := ongoing;
      evs := [];
      var n := 0;
      while n < |ongoingOrder|
        invariant 0 <= n <= |ongoingOrder|
        invariant ongoingOrder == old(ongoingOrder)
        invariant ongoing == ReleasedAll(held0, ongoingOrder[..n])
        invariant evs == EndEvents(guid, ongoingOrder[..n], held0)
        invariant defaultSet == old(defaultSet) && actualSet == old(actualSet)
      {
        var cmd := ongoingOrder[n];
        assert cmd !in ongoingOrder[..n];
        if cmd in held0 {
          ReleasedAllAt(held0, ongoingOrder[..n], cmd);
        }
        assert EndEvent(guid, cmd, ongoing) == EndEvent(guid, cmd, held0);
        EndEventsSnoc(guid, ongoingOrder, n, held0);
        var ended := EndHoldCommand(cmd);
        evs := evs + ended;
        assert ongoingOrder[..n + 1][..n] == ongoingOrder[..n];
        n := n + 1;
      }
      assert ongoingOrder[..n] == ongoingOrder;
      assert ongoing.Keys == held0.Keys;
      forall c | c in ongoing
        ensures !ongoing[c]
      {
        ReleasedAllAt(held0, ongoingOrder, c);
      }
    }

    /**
     * `registerCommand`: refuse a command already bound to some key, then
     * bind each given key (lower-cased) to the lower-cased command.
     */
    method RegisterCommand(commandName: string, defaultKeys: seq<KeyArg>) returns (out: Outcome)
      modifies this
      ensures (out, defaultSet) == Register(old(defaultSet), ToLower(commandName), defaultKeys)
      ensures actualSet == old(actualSet) && ongoing == old(ongoing) && ongoingOrder == old(ongoingOrder)
    {
      var cmd := ToLower(commandName);
      var rest := defaultSet.Keys;
      while rest != {}
        invariant rest <= defaultSet.Keys
        invariant forall k :: k in defaultSet && k !in rest ==> defaultSet[k] != Some(cmd)
        decreases |rest|
      {
        var k :| k in rest;
        if defaultSet[k] == Some(cmd) {
          return Fail("Command “" + cmd + "” already registered");
        }
        rest := rest - {k};
      }
      var n := 0;
      while n < |defaultKeys|
        invariant 0 <= n <= |defaultKeys|
        invariant BindKeys(old(defaultSet), cmd, defaultKeys) == BindKeys(defaultSet, cmd, defaultKeys[n..])
        invariant actualSet == old(actualSet) && ongoing == old(ongoing) && ongoingOrder == old(ongoingOrder)
      {
        assert defaultKeys[n..][1..] == defaultKeys[n + 1..];
        match defaultKeys[n]
        case NonString =>
          return Fail("Non-string key given");
        case Str(s) =>
          var k := ToLower(s);
          if !KnownKey(k) {
            return Fail("Unknown key “" + k + "” given");
          }
          if k in defaultSet && defaultSet[k].Some? && defaultSet[k].value != "" {
            return Fail("Default key “" + k + "” already bound to command “" + defaultSet[k].value + "”");
          }
          defaultSet := defaultSet[k := Some(cmd)];
        n := n + 1;
      }
      return Pass;
    }

    /**
     * `unregisterCommand`: unbind every key bound to the command, ending the
     * command when it is held and some key was bound to it.
     */
    method UnregisterCommand(cmd: string) returns (evs: seq<string>)
      requires Valid()
      modifies this
      ensures Valid()
      ensures defaultSet == Unbound(old(defaultSet), cmd)
      ensures if BoundTo(old(defaultSet), cmd) then
          evs == EndEvent(guid, cmd, old(ongoing)) && ongoing == Released(old(ongoing), cmd)
        else evs == [] && ongoing == old(ongoing)
      ensures actualSet == old(actualSet) && ongoingOrder == old(ongoingOrder)
    {
      evs := [];
      var rest := defaultSet.Keys;
      ghost var bound := false;
      while rest != {}
        invariant rest <= defaultSet.Keys == old(defaultSet).Keys
        invariant forall k :: k in defaultSet ==>
          defaultSet[k] == if k in rest then old(defaultSet)[k] else Unbound(old(defaultSet), cmd)[k]
        invariant bound <==> exists k :: k in old(defaultSet) && k !in rest && old(defaultSet)[k] == Some(cmd)
        invariant if bound then
            evs == EndEvent(guid, cmd, old(ongoing)) && ongoing == Released(old(ongoing), cmd)
          else evs == [] && ongoing == old(ongoing)
        invariant actualSet == old(actualSet) && ongoingOrder == old(ongoingOrder)
        decreases |rest|
      {
        var k :| k in rest;
        assert defaultSet[k] == old(defaultSet)[k];
        if defaultSet[k] == Some(cmd) {
          defaultSet := defaultSet[k := None];
          ReleasedTwice(guid, old(ongoing), cmd);
          var ended := EndHoldCommand(cmd);
          evs := evs + ended;
          bound := true;
        }
        rest := rest - {k};
      }
    }
  }

  /** Some key of the default set is bound to `cmd`. */
  predicate BoundTo(ds: map<string, Option<string>>, cmd: string)
  {
    exists k :: k in ds && ds[k] == Some(cmd)
  }

  /**
   * `unregisterCommand` on each command of `cmds`, lower-cased, in turn:
   * the defaults, the hold state and the end events published.
   */
  function UnregisterAll(ds: map<string, Option<string>>, ongoing: map<string, bool>, guid: string, cmds: seq<string>)
    : (map<string, Option<string>>, map<string, bool>, seq<string>)
  {
    if cmds == [] then (ds, ongoing, [])
    else
      var prev := UnregisterAll(ds, ongoing, guid, cmds[..|cmds| - 1]);
      var c := ToLower(cmds[|cmds| - 1]);
      if BoundTo(prev.0, c) then (Unbound(prev.0, c), Released(prev.1, c), prev.2 + EndEvent(guid, c, prev.1))
      else (Unbound(prev.0, c), prev.1, prev.2)
  }

  /**
   * After unregistering `cmds`, a key is unbound exactly when it was
   * unbound or bound to one of them; every other binding is kept.
   */
  lemma {:induction false} UnregisterAllDefaults(ds: map<string, Option<string>>, ongoing: map<string, bool>, guid: string, cmds: seq<string>)
    ensures var r := UnregisterAll(ds, ongoing, guid, cmds).0;
      r.Keys == ds.Keys
      && forall k :: k in r ==>
        r[k] == if exists i :: 0 <= i < |cmds| && ds[k] == Some(ToLower(cmds[i])) then None else ds[k]
  {
    if cmds != [] {
      var init := cmds[..|cmds| - 1];
      UnregisterAllDefaults(ds, ongoing, guid, init);
      assert forall i :: 0 <= i < |init| ==> init[i] == cmds[i];
    }
  }

  /**
   * What unregistering a list of commands leaves, command by command: a
   * key is unbound exactly when it was unbound or bound to one of them,
   * and every one of them that was bound to a key and is tracked is
   * released.
   */
  lemma UnregisterAllByCommand(ds: map<string, Option<string>>, ongoing: map<string, bool>, guid: string, cmds: seq<string>)
    ensures var r := UnregisterAll(ds, ongoing, guid, cmds);
      r.0.Keys == ds.Keys
      && (forall k :: k in r.0 ==>
            (r.0[k].Some? <==> (ds[k].Some? && forall c :: c in cmds ==> ds[k] != Some(ToLower(c)))))
      && forall c :: c in cmds && BoundTo(ds, ToLower(c)) && ToLower(c) in r.1 ==> !r.1[ToLower(c)]
  {
    var r := UnregisterAll(ds, ongoing, guid, cmds);
    UnregisterAllDefaults(ds, ongoing, guid, cmds);
    forall k | k in r.0 && ds[k].Some? && r.0[k].None?
      ensures exists c :: c in cmds && ds[k] == Some(ToLower(c))
    {
      var i :| 0 <= i < |cmds| && ds[k] == Some(ToLower(cmds[i]));
      assert cmds[i] in cmds;
    }
    UnregisterAllReleases(ds, ongoing, guid, cmds);
    forall c | c in cmds && BoundTo(ds, ToLower(c)) && ToLower(c) in r.1
      ensures !r.1[ToLower(c)]
    {
      var i :| 0 <= i < |cmds| && cmds[i] == c;
    }
  }

  /**
   * Unregistering only ever releases commands: the hold state keeps its
   * keys, nothing becomes held, and every command that was bound to a key
   * ends up released.
   */
  lemma {:induction false} UnregisterAllReleases(ds: map<string, Option<string>>, ongoing: map<string, bool>, guid: string, cmds: seq<string>)
    ensures var r := UnregisterAll(ds, ongoing, guid, cmds).1;
      r.Keys == ongoing.Keys
      && (forall c :: c in r && r[c] ==> ongoing[c])
      && forall i :: 0 <= i < |cmds| && BoundTo(ds, ToLower(cmds[i])) && ToLower(cmds[i]) in r ==> !r[ToLower(cmds[i])]
  {
    if cmds != [] {
      var init := cmds[..|cmds| - 1];
      var n := |cmds| - 1;
      var c := ToLower(cmds[n]);
      var prev := UnregisterAll(ds, ongoing, guid, init);
      var r := UnregisterAll(ds, ongoing, guid, cmds).1;
      UnregisterAllReleases(ds, ongoing, guid, init);
      UnregisterAllDefaults(ds, ongoing, guid, init);
      assert forall i :: 0 <= i < n ==> init[i] == cmds[i];
      assert forall d :: d in r ==> (r[d] ==> prev.1[d]);
      forall i | 0 <= i < |cmds| && BoundTo(ds, ToLower(cmds[i])) && ToLower(cmds[i]) in r
        ensures !r[ToLower(cmds[i])]
      {
        if i == n {
          if !BoundTo(prev.0, c) {
            var k :| k in ds && ds[k] == Some(c);
            assert prev.0[k] != Some(c);
            var j :| 0 <= j < n && ds[k] == Some(ToLower(init[j]));
            assert !prev.1[ToLower(init[j])];
          }
        }
      }
    }
  }

  /** The default set with every key of `cmd` unbound (set to undefined). */
  function Unbound(ds: map<string, Option<string>>, cmd: string): (r: map<string, Option<string>>)
    ensures r.Keys == ds.Keys
    ensures forall k :: k in r ==> r[k] == if ds[k] == Some(cmd) then None else ds[k]
  {
    map k | k in ds :: if ds[k] == Some(cmd) then None else ds[k]
  }

  /** The end event for `cmd`, published only when it is held. */
  function EndEvent(guid: string, cmd: string, ongoing: map<string, bool>): (evs: seq<string>)
    ensures |evs| <= 1
  {
    if cmd in ongoing && ongoing[cmd] then [guid + cmd + EndSuffix] else []
  }

  /** The hold state with `cmd` released (a command never held stays absent). */
  function Released(ongoing: map<string, bool>, cmd: string): (r: map<string, bool>)
    ensures r.Keys == ongoing.Keys
    ensures forall c :: c in r ==> r[c] == (c != cmd && ongoing[c])
  {
    if cmd in ongoing then ongoing[cmd := false] else ongoing
  }

  /** Ending a command a second time publishes nothing and changes nothing. */
  lemma ReleasedTwice(guid: string, ongoing: map<string, bool>, cmd: string)
    ensures Released(Released(ongoing, cmd), cmd) == Released(ongoing, cmd)
    ensures EndEvent(guid, cmd, Released(ongoing, cmd)) == []
  {
  }

  /** The hold state with every command of `cmds` released in turn. */
  function ReleasedAll(ongoing: map<string, bool>, cmds: seq<string>): (r: map<string, bool>)
    ensures r.Keys == ongoing.Keys
  {
    if cmds == [] then ongoing
    else Released(ReleasedAll(ongoing, cmds[..|cmds| - 1]), cmds[|cmds| - 1])
  }

  /** After releasing `cmds`, a command is held exactly when it was held and is not among them. */
  lemma {:induction false} ReleasedAllAt(ongoing: map<string, bool>, cmds: seq<string>, c: string)
    requires c in ongoing
    ensures ReleasedAll(ongoing, cmds)[c] == (c !in cmds && ongoing[c])
  {
    if cmds != [] {
      var init := cmds[..|cmds| - 1];
      ReleasedAllAt(ongoing, init, c);
      assert cmds == init + [cmds[|cmds| - 1]];
    }
  }

  /** The end events `endAllOngoingHoldCommandsFrom` publishes, in key order. */
  function EndEvents(guid: string, order: seq<string>, ongoing: map<string, bool>): (evs: seq<string>)
    ensures |evs| <= |order|
  {
    if order == [] then []
    else
      var c := order[|order| - 1];
      EndEvents(guid, order[..|order| - 1], ongoing) + EndEvent(guid, c, ongoing)
  }

  lemma EndEventsSnoc(guid: string, order: seq<string>, n: nat, ongoing: map<string, bool>)
    requires n < |order|
    ensures EndEvents(guid, order[..n + 1], ongoing) == EndEvents(guid, order[..n], ongoing) + EndEvent(guid, order[n], ongoing)
  {
    assert order[..n + 1][..n] == order[..n];
  }

  /** Which device an input event comes from. */
  datatype Device = Keyboard | Mouse

  class InputController {
    /** The control-set stack; index 0 is the top. */
    var controlSets: seq<ControlSet>
    var actualKeybinds: map<string, string>
    /** Events published on the controller, in order. */
    var published: seq<string>
    /** The module-level GUID counter of ControlSet. */
    var nextGuid: nat

    ghost predicate Valid()
      reads this, controlSets
    {
      (controlSets == [] ==> actualKeybinds == map[])
      && (controlSets != [] ==>
            actualKeybinds == Effective(controlSets[0].actualSet, controlSets[0].defaultSet))
      && forall i :: 0 <= i < |controlSets| ==> controlSets[i].Valid()
    }

    constructor ()
      ensures Valid() && controlSets == [] && published == [] && actualKeybinds == map[]
    {
      controlSets := [];
      actualKeybinds := map[];
      published := [];
      nextGuid := 0;
    }

    /** `_updateActualKeybinds`: the top set's bindings over its defaults, or none. */
    method UpdateActualKeybinds()
      modifies this
      ensures controlSets == [] ==> actualKeybinds == map[]
      ensures controlSets != [] ==>
        actualKeybinds == Effective(controlSets[0].actualSet, controlSets[0].defaultSet)
      ensures controlSets == old(controlSets) && published == old(published) && nextGuid == old(nextGuid)
    {
      if controlSets != [] {
        actualKeybinds := Effective(controlSets[0].actualSet, controlSets[0].defaultSet);
      } else {
        actualKeybinds := map[];
      }
    }

    /**
     * `pushControlSet`: end the held commands of the old top, then put a new
     * empty set (named `name`, or '' when it is falsy) on top.
     */
    method PushControlSet(name: string) returns (cs: ControlSet)
      requires Valid()
      modifies this, if controlSets != [] then {controlSets[0]} else {}
      ensures Valid()
      ensures fresh(cs) && controlSets == [cs] + old(controlSets)
      ensures cs.name == name && cs.guid == NatToString(old(nextGuid)) + ":" && nextGuid == old(nextGuid) + 1
      ensures cs.defaultSet == map[] && cs.actualSet == map[] && actualKeybinds == map[]
      ensures old(controlSets) != [] ==>
        (old(controlSets)[0].defaultSet == old(controlSets[0].defaultSet)
         && old(controlSets)[0].actualSet == old(controlSets[0].actualSet))
      ensures old(controlSets) != [] ==>
        published == old(published) + EndEvents(old(controlSets[0].guid), old(controlSets[0].ongoingOrder), old(controlSets[0].ongoing))
        && forall c :: c in old(controlSets)[0].ongoing ==> !old(controlSets)[0].ongoing[c]
      ensures old(controlSets) == [] ==> published == old(published)
    {
      if controlSets != [] {
        var ended := controlSets[0].EndAllOngoingHoldCommands();
        published := published + ended;
      }
      cs := new ControlSet(name, nextGuid);
      nextGuid := nextGuid + 1;
      controlSets := [cs] + controlSets;
      UpdateActualKeybinds();
    }

    /** `popControlSet`: remove the top set, end its held commands, refresh the bindings. */
    method PopControlSet()
      requires Valid()
      modifies this, if controlSets != [] then {controlSets[0]} else {}
      ensures Valid()
      ensures old(controlSets) == [] ==> controlSets == [] && published == old(published)
      ensures old(controlSets) != [] ==>
        (controlSets == old(controlSets[1..])
         && published == old(published) + EndEvents(old(controlSets[0].guid), old(controlSets[0].ongoingOrder), old(controlSets[0].ongoing)))
      ensures controlSets != [] ==>
        actualKeybinds == Effective(controlSets[0].actualSet, controlSets[0].defaultSet)
    {
      if controlSets != [] {
        var top := controlSets[0];
        controlSets := controlSets[1..];
        var ended := top.EndAllOngoingHoldCommands();
        published := published + ended;
      }
      UpdateActualKeybinds();
    }

    /**
     * `setKeybinds`: replace the top set's own bindings; there must be a
     * set to replace them on.
     */
    method SetKeybinds(entries: seq<(string, BindValue)>) returns (out: Outcome)
      requires Valid()
      modifies this, if controlSets != [] then {controlSets[0]} else {}
      ensures Valid()
      ensures controlSets == old(controlSets) && published == old(published)
      ensures old(controlSets) == [] ==> out == Fail("TypeError: no control set") && actualKeybinds == map[]
      ensures old(controlSets) != [] ==>
        (out == Pass && controlSets[0].actualSet == Keybinds(entries)
         && actualKeybinds == Effective(Keybinds(entries), controlSets[0].defaultSet))
    {
      if controlSets == [] {
        return Fail("TypeError: no control set");
      }
      controlSets[0].actualSet := Keybinds(entries);
      UpdateActualKeybinds();
      return Pass;
    }

    /**
     * `__registerHoldCommand` / `__registerInstantCommand` without the
     * listener: register on `cs`, and refresh the bindings when `cs` is on top.
     */
    method RegisterCommandOn(cs: ControlSet, commandName: string, defaultKeys: seq<KeyArg>) returns (out: Outcome)
      requires Valid() && cs in controlSets
      modifies this, cs
      ensures (out, cs.defaultSet) == Register(old(cs.defaultSet), ToLower(commandName), defaultKeys)
      ensures controlSets == old(controlSets) && published == old(published)
      ensures out == Pass ==> Valid()
      ensures out.Fail? ==> actualKeybinds == old(actualKeybinds)
    {
      out := cs.RegisterCommand(commandName, defaultKeys);
      if out.Fail? {
        // a throw leaves the bindings made so far, and skips the refresh
        return;
      }
      if cs == controlSets[0] {
        UpdateActualKeybinds();
      }
    }

    /**
     * `__unregisterCommand`: unregister each lower-cased command from `cs`
     * in turn, then refresh the bindings when `cs` is on top.
     */
    method UnregisterCommandsOn(cs: ControlSet, commands: seq<string>)
      requires Valid() && cs in controlSets
      modifies this, cs
      ensures Valid()
      ensures var f := UnregisterAll(old(cs.defaultSet), old(cs.ongoing), cs.guid, commands);
        cs.defaultSet == f.0 && cs.ongoing == f.1 && published == old(published) + f.2
      ensures cs.defaultSet.Keys == old(cs.defaultSet).Keys
      ensures forall k :: k in cs.defaultSet ==>
        (cs.defaultSet[k].Some? <==>
           (old(cs.defaultSet)[k].Some? && forall c :: c in commands ==> old(cs.defaultSet)[k] != Some(ToLower(c))))
      ensures forall c :: c in commands && BoundTo(old(cs.defaultSet), ToLower(c)) && ToLower(c) in cs.ongoing ==>
        !cs.ongoing[ToLower(c)]
      ensures controlSets == old(controlSets)
    {
      ghost var ds0, held0 := cs.defaultSet, cs.ongoing;
      var n := 0;
      while n < |commands|
        invariant 0 <= n <= |commands|
        invariant cs.Valid() && controlSets == old(controlSets)
        invariant forall i :: 0 <= i < |controlSets| && controlSets[i] != cs ==> controlSets[i].Valid()
        invariant var f := UnregisterAll(ds0, held0, cs.guid, commands[..n]);
          cs.defaultSet == f.0 && cs.ongoing == f.1 && published == old(published) + f.2
      {
        assert commands[..n + 1][..n] == commands[..n];
        var ended := cs.UnregisterCommand(ToLower(commands[n]));
        published := published + ended;
        n := n + 1;
      }
      assert commands[..n] == commands;
      UnregisterAllByCommand(ds0, held0, cs.guid, commands);
      UpdateActualKeybinds();
    }

    /**
     * The key and mouse handlers: ignore events with ctrl or meta held, codes
     * with no alias and aliases with no command; otherwise publish the
     * suffixed event (and, on a start, the bare command event), update the
     * held state, and report whether the default action is prevented.
     */
    method Handle(device: Device, code: int, ctrlKey: bool, metaKey: bool, isStart: bool)
      returns (handled: bool, prevented: bool)
      requires Valid()
      modifies this, if controlSets != [] then {controlSets[0]} else {}
      ensures Valid()
      ensures var alias := if device == Keyboard then KeyAlias(code) else MouseAlias(code);
        handled <==>
          (!ctrlKey && !metaKey && alias.Some? && alias.value in old(actualKeybinds)
           && old(actualKeybinds)[alias.value] != "")
      ensures controlSets == old(controlSets) && actualKeybinds == old(actualKeybinds)
      ensures !handled ==> published == old(published) && !prevented
      ensures handled ==> controlSets != []
      ensures handled ==>
        var alias := (if device == Keyboard then KeyAlias(code) else MouseAlias(code)).value;
        var cmd := old(actualKeybinds)[alias];
        var guid := controlSets[0].guid;
        prevented == Prevents(alias)
        && published == old(published) + (if isStart then [guid + cmd + StartSuffix, guid + cmd]
                                          else [guid + cmd + EndSuffix])
        && controlSets[0].ongoing == old(controlSets[0].ongoing)[cmd := isStart]
    {
      if ctrlKey || metaKey {
        return false, false;
      }
      var alias := if device == Keyboard then KeyAlias(code) else MouseAlias(code);
      if alias.None? {
        return false, false;
      }
      if alias.value !in actualKeybinds || actualKeybinds[alias.value] == "" {
        return false, false;
      }
      var cmd := actualKeybinds[alias.value];
      var top := controlSets[0];
      var withGuid := top.guid + cmd;
      if isStart {
        published := published + [withGuid + StartSuffix];
        published := published + [withGuid];
        top.SetHeld(cmd, true);
      } else {
        published := published + [withGuid + EndSuffix];
        top.SetHeld(cmd, false);
      }
      return true, Prevents(alias.value);
    }
  }

  /**
   * Pushing a set hides the old top's bindings: no key is bound until the
   * new set gets commands, and popping it restores the old top's bindings.
   */
  method PushThenPop(ctl: InputController)
    requires ctl.Valid() && ctl.controlSets != []
    modifies ctl, ctl.controlSets[0]
    ensures ctl.Valid()
    ensures ctl.controlSets == old(ctl.controlSets)
    ensures ctl.actualKeybinds == Effective(ctl.controlSets[0].actualSet, ctl.controlSets[0].defaultSet)
    ensures ctl.controlSets[0].defaultSet == old(ctl.controlSets[0].defaultSet)
    ensures ctl.controlSets[0].actualSet == old(ctl.controlSets[0].actualSet)
    ensures ctl.actualKeybinds == old(ctl.actualKeybinds)
  {
    var cs := ctl.PushControlSet("");
    assert ctl.actualKeybinds == map[];
    ctl.PopControlSet();
  }
}
